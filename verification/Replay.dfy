/**
 The replay table: token identifiers seen so far, with wholesale pruning of
 expired ones at most once a minute.
 */
module Replay {
  import opened Common

  type Seen = map<string, int>

  const MINUTE: int := 60_000_000_000  // nanoseconds

  function Unexpired(seen: Seen, now: int): Seen {
    map k | k in seen && !(now > seen[k]) :: seen[k]
  }

  predicate Flagged(seen: Seen, jti: string, now: int) {
    jti != "" && jti in seen && now < seen[jti]
  }

  function Recorded(seen: Seen, jti: string, exp: int, now: int): Seen {
    if jti == "" || Flagged(seen, jti, now) then seen else seen[jti := exp]
  }

  datatype Table = Table(seen: Seen, prune: Option<int>)

  predicate PruneDue(t: Table, now: int) {
    t.prune.None? || now > t.prune.value
  }

  /** One call of `check` on the pruned table. */
  function Checked(t: Table, jti: string, exp: int, now: int): Table {
    if jti == "" then t
    else
      var t' := if PruneDue(t, now) then Table(Unexpired(t.seen, now), Some(now + MINUTE)) else t;
      t'.(seen := Recorded(t'.seen, jti, exp, now))
  }

  predicate Answer(t: Table, jti: string, now: int) {
    Flagged(if PruneDue(t, now) then Unexpired(t.seen, now) else t.seen, jti, now)
  }

  class ReplayCache {
    var seen: Seen
    var prune: Option<int>

    constructor ()
      ensures seen == map[] && prune == None
    {
      seen := map[];
      prune := None;
    }

    /** `now` is the clock reading taken under the lock. */
    method Check(jti: string, exp: int, now: int) returns (replay: bool)
      modifies this
      ensures replay == Answer(old(Table(seen, prune)), jti, now)
      ensures prune == old(prune) || prune == Some(now + 60_000_000_000)
      ensures Table(seen, prune) == Checked(old(Table(seen, prune)), jti, exp, now)
    {
      if jti == "" {
        return false;
      }
      if prune.None? || now > prune.value {
        var todo := seen.Keys;
        while todo != {}
          invariant todo <= old(seen).Keys && seen.Keys <= old(seen).Keys
          invariant forall k :: k in seen ==> seen[k] == old(seen)[k]
          invariant forall k :: k in old(seen) ==> (k in seen <==> k in todo || !(now > old(seen)[k]))
          decreases |todo|
        {
          var k :| k in todo;
          if now > seen[k] {
            seen := seen - {k};
          }
          todo := todo - {k};
        }
        assert seen == Unexpired(old(seen), now);
        prune := Some(now + MINUTE);
      }
      if jti in seen && now < seen[jti] {
        return true;
      }
      seen := seen[jti := exp];
      return false;
    }
  }

  /* ------------------------------------------------------------------ */
  /* Whole runs                                                          */
  /* ------------------------------------------------------------------ */

  datatype Check = Check(jti: string, exp: int, now: int)

  predicate InOrder(run: seq<Check>) {
    forall i, j :: 0 <= i < j < |run| ==> run[i].now <= run[j].now
  }

  function Pruning(run: seq<Check>): Table {
    if run == [] then Table(map[], None)
    else var c := run[|run|-1]; Checked(Pruning(run[..|run|-1]), c.jti, c.exp, c.now)
  }

  /** The reference: a table that is never pruned. */
  function Keeping(run: seq<Check>): Seen {
    if run == [] then map[]
    else var c := run[|run|-1]; Recorded(Keeping(run[..|run|-1]), c.jti, c.exp, c.now)
  }

  /** The answer to check i of the run. */
  predicate Replayed(run: seq<Check>, i: nat)
    requires i < |run|
  {
    Answer(Pruning(run[..i]), run[i].jti, run[i].now)
  }

  predicate Refines(p: Seen, all: Seen, now: int) {
    && (forall k :: k in p ==> k in all && p[k] == all[k])
    && (forall k :: k in all && k !in p ==> all[k] < now)
  }

  lemma {:induction false} PruningRefines(run: seq<Check>, n: nat, now: int)
    requires InOrder(run) && n <= |run| && (n > 0 ==> run[n-1].now <= now)
    ensures Refines(Pruning(run[..n]).seen, Keeping(run[..n]), now)
  {
    if n > 0 {
      var c := run[n-1];
      PruningRefines(run, n - 1, c.now);
      assert run[..n][..n-1] == run[..n-1];
    }
  }

  /** With a clock that does not run backwards, every answer is the one the
      never-pruned table gives. */
  lemma PruningNeverChangesAnswer(run: seq<Check>, i: nat)
    requires InOrder(run) && i < |run|
    ensures Replayed(run, i) == Flagged(Keeping(run[..i]), run[i].jti, run[i].now)
  {
    PruningRefines(run, i, run[i].now);
  }

  /** Check i of the run recorded its token. */
  predicate Accepted(run: seq<Check>, i: nat)
    requires i < |run|
  {
    run[i].jti != "" && !Replayed(run, i)
  }

  /** The never-pruned table holds the latest acceptance of each token. */
  lemma {:induction false} KeepingHoldsAcceptance(run: seq<Check>, n: nat, jti: string)
    requires InOrder(run) && n <= |run|
    ensures jti in Keeping(run[..n]) ==>
              exists i :: 0 <= i < n && run[i].jti == jti && Accepted(run, i) && Keeping(run[..n])[jti] == run[i].exp
  {
    if n > 0 {
      KeepingHoldsAcceptance(run, n - 1, jti);
      assert run[..n][..n-1] == run[..n-1];
      PruningNeverChangesAnswer(run, n - 1);
      var c := run[n-1];
      if c.jti == jti && Accepted(run, n - 1) {
        assert Keeping(run[..n])[jti] == c.exp;
      } else if jti in Keeping(run[..n-1]) {
        var i :| 0 <= i < n - 1 && run[i].jti == jti && Accepted(run, i) && Keeping(run[..n-1])[jti] == run[i].exp;
        assert Keeping(run[..n])[jti] == run[i].exp;
      }
    }
  }

  /** Until it expires, an accepted token stays recorded with its own expiry. */
  lemma {:induction false} AcceptanceStays(run: seq<Check>, i: nat, n: nat)
    requires InOrder(run) && i < n <= |run| && Accepted(run, i)
    requires forall m :: i < m < n ==> run[m].now < run[i].exp
    ensures run[i].jti in Keeping(run[..n]) && Keeping(run[..n])[run[i].jti] == run[i].exp
  {
    PruningNeverChangesAnswer(run, n - 1);
    assert run[..n][..n-1] == run[..n-1];
    if i < n - 1 {
      AcceptanceStays(run, i, n - 1);
    }
  }

  /** The exact meaning of the answer: a token is reported as replayed if and
      only if an earlier check accepted it and that acceptance has not expired. */
  lemma ReplayedIffAcceptedBefore(run: seq<Check>, n: nat)
    requires InOrder(run) && n < |run|
    ensures Replayed(run, n) <==>
              exists i :: 0 <= i < n && run[i].jti == run[n].jti && Accepted(run, i) && run[n].now < run[i].exp
  {
    PruningNeverChangesAnswer(run, n);
    KeepingHoldsAcceptance(run, n, run[n].jti);
    forall i | 0 <= i < n && run[i].jti == run[n].jti && Accepted(run, i) && run[n].now < run[i].exp
      ensures Replayed(run, n)
    {
      AcceptanceStays(run, i, n);
    }
  }

  /* ------------------------------------------------------------------ */
  /* The table behind the verifier                                       */
  /* ------------------------------------------------------------------ */

  const SECOND: int := 1_000_000_000

  /** A token shown to the verifier: its expiry and the verifier's own reading in
      seconds, the table's reading in nanoseconds, and whether signature, start,
      issuer and audience are in order. */
  datatype Presentation = Presentation(jti: string, exp: int, read: int, now: int, sound: bool)

  /** Not yet expired, with the allowed clock skew. */
  predicate Current(p: Presentation, skew: int) {
    !(p.exp > 0 && p.read > p.exp + skew)
  }

  /** The verifier asks the table. */
  predicate Asks(p: Presentation, skew: int) {
    p.sound && Current(p, skew) && p.jti != "" && p.exp > 0
  }

  function CheckOf(p: Presentation): Check { Check(p.jti, p.exp * SECOND, p.now) }

  function ChecksOf(ps: seq<Presentation>, skew: int): seq<Check> {
    if ps == [] then []
    else
      var p := ps[|ps|-1];
      ChecksOf(ps[..|ps|-1], skew) + if Asks(p, skew) then [CheckOf(p)] else []
  }

  predicate Passes(ps: seq<Presentation>, i: nat, skew: int)
    requires i < |ps|
  {
    var p := ps[i];
    && p.sound && Current(p, skew)
    && !(p.jti != "" && p.exp > 0 && Answer(Pruning(ChecksOf(ps[..i], skew)), p.jti, p.now))
  }

  predicate ShownInOrder(ps: seq<Presentation>) {
    forall i, j :: 0 <= i < j < |ps| ==> ps[i].now <= ps[j].now
  }

  /** The table has its own numbering of the presentations it is asked about. */
  predicate Numbered(ps: seq<Presentation>, skew: int, n: nat, i: nat, m: nat) {
    && i < n <= |ps| && Asks(ps[i], skew)
    && var cs := ChecksOf(ps[..n], skew);
    && m < |cs| && cs[m] == CheckOf(ps[i]) && cs[..m] == ChecksOf(ps[..i], skew)
  }

  lemma {:induction false} NumberOf(ps: seq<Presentation>, skew: int, n: nat, i: nat)
    requires i < n <= |ps| && Asks(ps[i], skew)
    ensures Numbered(ps, skew, n, i, |ChecksOf(ps[..i], skew)|)
  {
    assert ps[..n][..n-1] == ps[..n-1];
    if i < n - 1 {
      NumberOf(ps, skew, n - 1, i);
    }
  }

  lemma {:induction false} AskedAs(ps: seq<Presentation>, skew: int, n: nat, m: nat) returns (i: nat)
    requires n <= |ps| && m < |ChecksOf(ps[..n], skew)|
    ensures Numbered(ps, skew, n, i, m)
  {
    assert ps[..n][..n-1] == ps[..n-1];
    if m < |ChecksOf(ps[..n-1], skew)| {
      i := AskedAs(ps, skew, n - 1, m);
    } else {
      i := n - 1;
    }
  }

  lemma ChecksInOrder(ps: seq<Presentation>, skew: int, n: nat)
    requires ShownInOrder(ps) && n <= |ps|
    ensures InOrder(ChecksOf(ps[..n], skew))
    ensures n < |ps| ==> InOrder(ChecksOf(ps[..n], skew) + [CheckOf(ps[n])])
  {
    var cs := ChecksOf(ps[..n], skew);
    forall a | 0 <= a < |cs| ensures n < |ps| ==> cs[a].now <= ps[n].now {
      var i := AskedAs(ps, skew, n, a);
    }
    forall a, b | 0 <= a < b < |cs| ensures cs[a].now <= cs[b].now {
      var j := AskedAs(ps, skew, n, b);
      assert cs[..b][a] == ChecksOf(ps[..j], skew)[a];
      var i := AskedAs(ps, skew, j, a);
    }
  }

  /** Presentation i stops a later one at reading `now`. */
  predicate Blocks(ps: seq<Presentation>, i: nat, jti: string, now: int, skew: int)
    requires i < |ps|
  {
    ps[i].jti == jti && ps[i].exp > 0 && Passes(ps, i, skew) && now < ps[i].exp * SECOND
  }

  /** A check the table accepted is a presentation that passed. */
  lemma AcceptedBlocks(ps: seq<Presentation>, skew: int, n: nat, run: seq<Check>, m: nat) returns (i: nat)
    requires n < |ps| && run == ChecksOf(ps[..n], skew) + [CheckOf(ps[n])] && m < |run| - 1
    requires run[m].jti == ps[n].jti && Accepted(run, m) && ps[n].now < run[m].exp
    ensures i < n && Blocks(ps, i, ps[n].jti, ps[n].now, skew)
  {
    assert run[..m] == ChecksOf(ps[..n], skew)[..m];
    i := AskedAs(ps, skew, n, m);
  }

  lemma BlocksAccepted(ps: seq<Presentation>, skew: int, n: nat, run: seq<Check>, i: nat) returns (m: nat)
    requires n < |ps| && run == ChecksOf(ps[..n], skew) + [CheckOf(ps[n])] && ps[n].jti != ""
    requires i < n && Blocks(ps, i, ps[n].jti, ps[n].now, skew)
    ensures m < |run| - 1 && run[m].jti == ps[n].jti && Accepted(run, m) && ps[n].now < run[m].exp
  {
    NumberOf(ps, skew, n, i);
    m := |ChecksOf(ps[..i], skew)|;
    assert run[..m] == ChecksOf(ps[..n], skew)[..m];
  }

  /** The verifier as a whole: a sound, current token passes unless a token with
      its identifier has passed before and that one's own expiry, without the skew,
      is still to come. */
  lemma PassesIff(ps: seq<Presentation>, n: nat, skew: int)
    requires ShownInOrder(ps) && n < |ps|
    ensures var p := ps[n];
            Passes(ps, n, skew) <==>
              && p.sound && (p.exp <= 0 || p.read <= p.exp + skew)
              && (p.jti == "" || p.exp <= 0 ||
                  forall i :: 0 <= i < n && ps[i].jti == p.jti && ps[i].exp > 0 && Passes(ps, i, skew) ==>
                    ps[i].exp * 1_000_000_000 <= p.now)
  {
    PassesUnlessBlocked(ps, n, skew);
    var p := ps[n];
    forall i | 0 <= i < n
      ensures Blocks(ps, i, p.jti, p.now, skew) <==>
                ps[i].jti == p.jti && ps[i].exp > 0 && Passes(ps, i, skew) && p.now < ps[i].exp * 1_000_000_000
    {}
    hide Blocks, Passes;
  }

  lemma PassesUnlessBlocked(ps: seq<Presentation>, n: nat, skew: int)
    requires ShownInOrder(ps) && n < |ps|
    ensures Passes(ps, n, skew) <==>
              && ps[n].sound && Current(ps[n], skew)
              && !(Asks(ps[n], skew) && exists i :: 0 <= i < n && Blocks(ps, i, ps[n].jti, ps[n].now, skew))
  {
    if Asks(ps[n], skew) {
      hide Blocks, Accepted;
      var cs := ChecksOf(ps[..n], skew);
      var run := cs + [CheckOf(ps[n])];
      ChecksInOrder(ps, skew, n);
      assert run[..|cs|] == cs;
      ReplayedIffAcceptedBefore(run, |cs|);
      if Replayed(run, |cs|) {
        var m :| 0 <= m < |cs| && run[m].jti == ps[n].jti && Accepted(run, m) && ps[n].now < run[m].exp;
        var i := AcceptedBlocks(ps, skew, n, run, m);
      }
      if i :| 0 <= i < n && Blocks(ps, i, ps[n].jti, ps[n].now, skew) {
        var m := BlocksAccepted(ps, skew, n, run, i);
      }
    }
  }

  /** A token with an identifier that has passed once passes again if and only
      if it is presented within the skew but not before its expiry: the table keeps
      it only until then, while the verifier takes it longer. */
  lemma UsedTokenPassesIff(ps: seq<Presentation>, i: nat, n: nat, skew: int)
    requires ShownInOrder(ps) && i < n < |ps| && Passes(ps, i, skew)
    requires ps[n].sound && ps[n].jti != "" && 0 < ps[n].exp && ps[n].read <= ps[n].exp + skew
    requires forall j :: 0 <= j < n && ps[j].jti == ps[n].jti ==> ps[j].exp == ps[n].exp
    requires ps[i].jti == ps[n].jti
    ensures Passes(ps, n, skew) <==> ps[n].exp * 1_000_000_000 <= ps[n].now
  {
    PassesIff(ps, n, skew);
  }

  /** One token, three times: before its expiry, at it, and at the end of the skew. */
  lemma SkewReopensToken(jti: string, skew: int)
    requires jti != "" && skew > 0
    ensures var s := 1_000_000_000;
            var ps := [Presentation(jti, 10, 5, 5 * s, true), Presentation(jti, 10, 10, 10 * s, true),
                       Presentation(jti, 10, 10 + skew, (10 + skew) * s, true)];
            Passes(ps, 0, skew) && Passes(ps, 1, skew) && Passes(ps, 2, skew)
  {
    var ps := [Presentation(jti, 10, 5, 5 * SECOND, true), Presentation(jti, 10, 10, 10 * SECOND, true),
               Presentation(jti, 10, 10 + skew, (10 + skew) * SECOND, true)];
    PassesIff(ps, 0, skew);
    UsedTokenPassesIff(ps, 0, 1, skew);
    UsedTokenPassesIff(ps, 0, 2, skew);
  }
}
