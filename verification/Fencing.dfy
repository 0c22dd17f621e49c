/** The fencing-gated `current_deployment` write and the unfenced one
    (src/lib/lock.ts `fencedSetCurrent`, src/lib/state.ts `setCurrent`). */
module Fencing {
  import opened Tables

  function FencedSet(t: CurrentTable, service: string, tag: string, token: int, now: int): (CurrentTable, bool) {
    if service in t && token < t[service].token then (t, false)
    else (t[service := CurrentRow(tag, now, token)], true)
  }

  /** Not gated: keeps the stored token, and a new row starts at the column default 0. */
  function UnfencedSet(t: CurrentTable, service: string, tag: string, now: int): CurrentTable {
    t[service := CurrentRow(tag, now, if service in t then t[service].token else 0)]
  }

  method FencedSetCurrent(db: Database, service: string, tag: string, token: int, now: int) returns (applied: bool)
    modifies db`current
    ensures (db.current, applied) == FencedSet(old(db.current), service, tag, token, now)
  {
    if service !in db.current {
      db.current := db.current[service := CurrentRow(tag, now, token)];
      return true;
    }
    applied := token >= db.current[service].token;
    if applied {
      db.current := db.current[service := CurrentRow(tag, now, token)];
    }
  }

  method SetCurrent(db: Database, service: string, tag: string, now: int)
    modifies db`current
    ensures db.current == UnfencedSet(old(db.current), service, tag, now)
  {
    if service in db.current {
      db.current := db.current[service := db.current[service].(tag := tag, deployedAt := now)];
    } else {
      db.current := db.current[service := CurrentRow(tag, now, 0)];
    }
  }

  // ------------------------------------------------------------------
  // Whole histories of writes
  // ------------------------------------------------------------------

  datatype Write =
    | Fenced(service: string, tag: string, token: int, now: int)
    | Unfenced(service: string, tag: string, now: int)

  function Put(t: CurrentTable, w: Write): CurrentTable {
    match w
    case Fenced(s, tag, token, now) => FencedSet(t, s, tag, token, now).0
    case Unfenced(s, tag, now) => UnfencedSet(t, s, tag, now)
  }

  function Stored(writes: seq<Write>): CurrentTable {
    if writes == [] then map[] else Put(Stored(writes[..|writes| - 1]), writes[|writes| - 1])
  }

  predicate Touches(writes: seq<Write>, service: string) {
    exists k :: 0 <= k < |writes| && writes[k].service == service
  }

  /** Write `i` to `service` carries a token and it is higher than `token`. */
  predicate Outranks(writes: seq<Write>, i: int, service: string, token: int) {
    0 <= i < |writes| && writes[i].Fenced? && writes[i].service == service && writes[i].token > token
  }

  /** Tokens come from locks, whose first token is 1; the column default is 0. */
  predicate TokensNonNegative(writes: seq<Write>) {
    forall k :: 0 <= k < |writes| && writes[k].Fenced? ==> writes[k].token >= 0
  }

  /** Write `k` decides what `service` shows: it took effect, and every later write to it was refused
      because an earlier write outranks it. */
  ghost predicate Decides(writes: seq<Write>, service: string, k: int) {
    && 0 <= k < |writes|
    && writes[k].service == service
    && (writes[k].Fenced? ==> forall i :: i < k ==> !Outranks(writes, i, service, writes[k].token))
    && (forall j :: k < j < |writes| && writes[j].service == service ==>
          writes[j].Fenced? && exists i :: i < j && Outranks(writes, i, service, writes[j].token))
  }

  /** Adding a write changes nothing about which earlier writes outrank a token. */
  lemma OutranksPrefix(writes: seq<Write>, n: nat, service: string)
    requires n <= |writes|
    ensures forall i, token ::
              Outranks(writes[..n], i, service, token) <==> i < n && Outranks(writes, i, service, token)
  {
  }

  /** The stored token is the highest one ever written, or 0 when only unfenced writes were made. */
  lemma {:induction false} StoredTokenIsTheMaximum(writes: seq<Write>, service: string)
    requires TokensNonNegative(writes) && Touches(writes, service)
    ensures service in Stored(writes)
    ensures var top := Stored(writes)[service].token;
            && (forall i :: !Outranks(writes, i, service, top))
            && top >= 0
            && (top > 0 ==> Carries(writes, service, top))
  {
    var n := |writes| - 1;
    var before, w := writes[..n], writes[n];
    OutranksPrefix(writes, n, service);
    assert forall k :: 0 <= k < n ==> before[k] == writes[k];
    if Touches(before, service) {
      StoredTokenIsTheMaximum(before, service);
      var top := Stored(before)[service].token;
      if Carries(before, service, top) {
        var i :| 0 <= i < n && before[i] == Fenced(service, before[i].tag, top, before[i].now);
        assert writes[i] == Fenced(service, writes[i].tag, top, writes[i].now);
      }
    } else {
      EmptyUntilTouched(before, service);
      NothingOutranks(before, service);
    }
    if w.Fenced? && w.service == service {
      assert writes[n] == Fenced(service, w.tag, w.token, w.now);
    }
    var newTop := Stored(writes)[service].token;
    forall i ensures !Outranks(writes, i, service, newTop) {
      if i < n {
        assert Touches(before, service) ==> !Outranks(before, i, service, Stored(before)[service].token);
        assert !Outranks(before, i, service, newTop);
      }
    }
  }

  predicate Carries(writes: seq<Write>, service: string, token: int) {
    exists i :: 0 <= i < |writes| && writes[i] == Fenced(service, writes[i].tag, token, writes[i].now)
  }

  /** The stored tag and its time are those of the last write that took effect: no earlier write outranks
      it, and every later write to the service is outranked. */
  lemma {:induction false} StoredTagIsTheDecidingWrite(writes: seq<Write>, service: string) returns (k: nat)
    requires TokensNonNegative(writes) && Touches(writes, service)
    ensures service in Stored(writes) && Decides(writes, service, k)
    ensures Stored(writes)[service].tag == writes[k].tag && Stored(writes)[service].deployedAt == writes[k].now
  {
    var n := |writes| - 1;
    var before, w := writes[..n], writes[n];
    OutranksPrefix(writes, n, service);
    if !Touches(before, service) {
      assert w.service == service by {
        assert forall i :: 0 <= i < n ==> before[i] == writes[i];
      }
      NothingOutranks(before, service);
      EmptyUntilTouched(before, service);
      return n;
    }
    StoredTokenIsTheMaximum(before, service);
    var top := Stored(before)[service].token;
    if w.service == service && (w.Fenced? ==> top <= w.token) {
      assert w.Fenced? ==> forall i :: Outranks(before, i, service, w.token) ==> Outranks(before, i, service, top);
      return n;
    }
    k := StoredTagIsTheDecidingWrite(before, service);
    StillDecides(writes, service, k, top);
  }

  /** The stored token is the deciding write's own if and only if that write is fenced. */
  lemma DecidingWriteCarriesTheTokenIff(writes: seq<Write>, service: string, k: int)
    requires TokensNonNegative(writes) && Touches(writes, service) && Decides(writes, service, k)
    ensures service in Stored(writes)
    ensures var token := Stored(writes)[service].token;
            writes[k].Fenced? <==> writes[k] == Fenced(service, writes[k].tag, token, writes[k].now)
  {
    StoredTokenIsTheMaximum(writes, service);
    var top := Stored(writes)[service].token;
    forall i | k < i < |writes| && writes[i].service == service ensures writes[i].Fenced? && writes[i].token < top {
      var j :| j < i && Outranks(writes, j, service, writes[i].token);
      assert !Outranks(writes, j, service, top);
    }
    if top > 0 {
      var i :| 0 <= i < |writes| && writes[i] == Fenced(service, writes[i].tag, top, writes[i].now);
      assert i <= k && (i < k && writes[k].Fenced? ==> !Outranks(writes, i, service, writes[k].token));
    }
    assert !Outranks(writes, k, service, top);
  }

  lemma NothingOutranks(writes: seq<Write>, service: string)
    requires !Touches(writes, service)
    ensures forall i, token :: !Outranks(writes, i, service, token)
  {
  }

  /** One more write that is refused, or is to another service, leaves the deciding write in charge. */
  lemma StillDecides(writes: seq<Write>, service: string, k: nat, top: int)
    requires writes != [] && Decides(writes[..|writes| - 1], service, k)
    requires var w := writes[|writes| - 1];
             w.service == service ==>
               w.Fenced? && w.token < top && Carries(writes[..|writes| - 1], service, top)
    ensures Decides(writes, service, k)
  {
    var n := |writes| - 1;
    var before, w := writes[..n], writes[n];
    OutranksPrefix(writes, n, service);
    assert before[k] == writes[k];
    forall j | k < j < |writes| && writes[j].service == service
      ensures writes[j].Fenced? && exists i :: i < j && Outranks(writes, i, service, writes[j].token)
    {
      if j < n {
        assert before[j] == writes[j];
        var i :| i < j && Outranks(before, i, service, before[j].token);
        assert Outranks(writes, i, service, writes[j].token);
      } else {
        var i :| 0 <= i < n && before[i] == Fenced(service, before[i].tag, top, before[i].now);
        assert Outranks(writes, i, service, w.token);
      }
    }
  }

  lemma {:induction false} EmptyUntilTouched(writes: seq<Write>, service: string)
    requires !Touches(writes, service)
    ensures service !in Stored(writes)
  {
    if writes != [] {
      var before := writes[..|writes| - 1];
      assert forall k :: 0 <= k < |before| ==> before[k] == writes[k];
      assert writes[|writes| - 1].service != service;
      EmptyUntilTouched(before, service);
    }
  }

  /** With fenced writes only: the stored tag is that of the last write carrying the maximum token. */
  lemma {:induction false} FencedWritesKeepTheMaximum(writes: seq<Write>, service: string)
    requires TokensNonNegative(writes) && Touches(writes, service)
    requires forall k :: 0 <= k < |writes| ==> writes[k].Fenced?
    ensures service in Stored(writes)
    ensures exists k :: 0 <= k < |writes| && writes[k].service == service
                        && Stored(writes)[service].tag == writes[k].tag
                        && Stored(writes)[service].token == writes[k].token
                        && (forall i :: 0 <= i < |writes| && writes[i].service == service ==>
                              writes[i].token <= writes[k].token)
                        && (forall j :: k < j < |writes| && writes[j].service == service ==>
                              writes[j].token < writes[k].token)
  {
    StoredTokenIsTheMaximum(writes, service);
    var row := Stored(writes)[service];
    var k := StoredTagIsTheDecidingWrite(writes, service);
    forall j | 0 <= j < |writes| && writes[j].service == service
      ensures writes[j].token <= writes[k].token && (j > k ==> writes[j].token < writes[k].token)
    {
      LaterIsLower(writes, service, k, j);
    }
    assert row.token == writes[k].token by {
      assert !Outranks(writes, k, service, row.token);
    }
  }

  /** Nothing before the deciding write outranks it, and everything after it is outranked by it. */
  lemma {:induction false} LaterIsLower(writes: seq<Write>, service: string, k: nat, j: nat)
    requires j < |writes| && writes[j].service == service && Decides(writes, service, k)
    requires forall i :: 0 <= i < |writes| ==> writes[i].Fenced?
    ensures writes[j].token <= writes[k].token && (j > k ==> writes[j].token < writes[k].token)
    decreases j
  {
    if j < k {
      assert !Outranks(writes, j, service, writes[k].token);
    } else if j > k {
      var i :| i < j && Outranks(writes, i, service, writes[j].token);
      LaterIsLower(writes, service, k, i);
    }
  }

  /** However many writes of either kind happen in between, a fenced write that an earlier one
      outranks is refused and leaves the table as it was. */
  lemma {:induction false} StaleWriteIsRefused(writes: seq<Write>, i: nat, service: string, tag: string, token: int,
                                               now: int)
    requires i < |writes| && writes[i].Fenced? && writes[i].service == service && token < writes[i].token
    ensures FencedSet(Stored(writes), service, tag, token, now) == (Stored(writes), false)
  {
    TokenNeverDrops(writes, i, service);
  }

  lemma {:induction false} TokenNeverDrops(writes: seq<Write>, i: nat, service: string)
    requires i < |writes| && writes[i].Fenced? && writes[i].service == service
    ensures service in Stored(writes) && writes[i].token <= Stored(writes)[service].token
    decreases |writes|
  {
    var before := writes[..|writes| - 1];
    if i < |before| {
      assert before[i] == writes[i];
      TokenNeverDrops(before, i, service);
    }
  }

  /** An unfenced write changes the tag and keeps the token: this history ends with token 5 and a tag
      that no write with token 5 set. */
  lemma UnfencedWriteReplacesTheTag()
    ensures var row := Stored([Fenced("web", "v5", 5, 0), Unfenced("web", "v6", 1)])["web"];
            row.token == 5 && row.tag == "v6"
  {
    var ws := [Fenced("web", "v5", 5, 0), Unfenced("web", "v6", 1)];
    assert ws[..1] == [Fenced("web", "v5", 5, 0)];
    assert ws[..1][..0] == [];
    assert Stored(ws[..1]) == map["web" := CurrentRow("v5", 0, 5)];
  }
}
