/** The addresses seen with one session token (management-plane/sequence_engine.go). */
module AccountTakeover {
  /** The window after one more address, and whether the session is revoked. */
  function Observe(ips: seq<string>, ip: string): (seq<string>, bool) {
    var seen := if ip in ips then ips else ips + [ip];
    if |seen| >= 2 then ([], true) else (seen, false)
  }

  class SessionWindow {
    var ips: seq<string>

    constructor ()
      ensures ips == []
    {
      ips := [];
    }

    method Evaluate(ip: string) returns (revoked: bool)
      modifies this
      ensures (ips, revoked) == Observe(old(ips), ip)
    {
      var isNew := true;
      for i := 0 to |ips|
        invariant isNew
        invariant ip !in ips[..i]
      {
        if ips[i] == ip {
          isNew := false;
          break;
        }
      }
      if isNew {
        ips := ips + [ip];
      }
      revoked := |ips| >= 2;
      if revoked {
        ips := [];
      }
    }
  }

  function After(run: seq<string>): seq<string> {
    if run == [] then [] else Observe(After(run[..|run| - 1]), run[|run| - 1]).0
  }

  predicate RevokedAt(run: seq<string>, i: nat)
    requires i < |run|
  {
    Observe(After(run[..i]), run[i]).1
  }

  /** The window never holds more than the address of the latest request. */
  lemma {:induction false} AtMostOneAddress(run: seq<string>)
    ensures run != [] ==> After(run) == [] || After(run) == [run[|run| - 1]]
    ensures run == [] ==> After(run) == []
    decreases |run|
  {
    if |run| <= 1 {
    } else {
      AtMostOneAddress(run[..|run| - 1]);
    }
  }

  /** When exactly: a request revokes the session if and only if its address differs from that of the
      request before it and that request did not revoke the session itself. */
  lemma RevokedExactly(run: seq<string>, i: nat)
    requires i < |run|
    ensures RevokedAt(run, i) <==> i > 0 && run[i] != run[i - 1] && !RevokedAt(run, i - 1)
    ensures After(run[..i + 1]) == if RevokedAt(run, i) then [] else [run[i]]
  {
    assert run[..i + 1][..i] == run[..i];
    if i > 0 {
      assert run[..i][..i - 1] == run[..i - 1];
      AtMostOneAddress(run[..i - 1]);
    }
    AtMostOneAddress(run[..i]);
    AtMostOneAddress(run[..i + 1]);
  }

  lemma {:induction false} SteadyAddress(run: seq<string>)
    requires forall i | 0 <= i < |run| :: run[i] == run[0]
    ensures run != [] ==> After(run) == [run[0]]
    ensures forall i | 0 <= i < |run| :: !RevokedAt(run, i)
  {
    if run == [] {
    } else {
      var n := |run| - 1;
      var front := run[..n];
      SteadyAddress(front);
      forall i | 0 <= i < n ensures !RevokedAt(run, i) {
        assert run[..i] == front[..i];
        assert !RevokedAt(front, i);
      }
    }
  }

  /** A session is revoked at some point exactly when two addresses ever presented its token. */
  lemma RevokedIffTwoAddresses(run: seq<string>)
    ensures (exists i | 0 <= i < |run| :: RevokedAt(run, i)) <==> exists i | 0 <= i < |run| :: run[i] != run[0]
  {
    if forall i | 0 <= i < |run| :: run[i] == run[0] {
      SteadyAddress(run);
    } else {
      var k := FirstChange(run, 1);
      SteadyAddress(run[..k]);
      assert RevokedAt(run, k);
    }
  }

  function FirstChange(run: seq<string>, i: nat): (k: nat)
    requires 1 <= i <= |run|
    requires forall j | 0 <= j < i :: run[j] == run[0]
    requires exists j | 0 <= j < |run| :: run[j] != run[0]
    ensures 1 <= k < |run| && run[k] != run[0]
    ensures forall j | 0 <= j < k :: run[j] == run[0]
    decreases |run| - i
  {
    if i < |run| && run[i] != run[0] then i else FirstChange(run, i + 1)
  }
}
