/**
 * The schedule representation shared by every part of the scheduler.
 *
 * A schedule is a sequence of rounds, a round is a sequence of (home, away)
 * matches, and team ids are integers in [0, n). The id -1 is the bye sentinel
 * ("no team"); the representation keeps it because the
 * validators and move primitives treat it specially.
 */
module Schedule {

  /** The bye sentinel: a slot that holds no team. */
  const Bye: int := -1

  datatype Match = Match(home: int, away: int)

  type Round = seq<Match>

  type Sched = seq<Round>

  /** The match with home and away exchanged. */
  function Flip(m: Match): Match {
    Match(m.away, m.home)
  }

  /** The orientation-free form of a match: the smaller id first. */
  function Key(m: Match): Match {
    if m.home <= m.away then m else Flip(m)
  }

  /** The real (non-bye) teams of a match. */
  function TeamSet(m: Match): set<int> {
    {m.home, m.away} - {Bye}
  }

  /** Id t is listed on either side of match m. */
  predicate Plays(m: Match, t: int) {
    m.home == t || m.away == t
  }

  /** Both sides of the match are the same real team. */
  predicate SelfPlay(m: Match) {
    m.home == m.away && m.home != Bye
  }

  /** No real team occurs twice in the round: no team plays itself and no two matches share a team. */
  predicate NoRepeatedTeam(rnd: Round) {
    && (forall i :: 0 <= i < |rnd| ==> !SelfPlay(rnd[i]))
    && (forall i, j :: 0 <= i < j < |rnd| ==> TeamSet(rnd[i]) !! TeamSet(rnd[j]))
  }

  /** The central structural invariant: every round is free of repeated teams. */
  predicate AllRoundsDistinct(s: Sched) {
    forall r :: 0 <= r < |s| ==> NoRepeatedTeam(s[r])
  }

  /** Every id in the schedule is a real team in [0, n) (in particular, no bye appears). */
  predicate IdsWithin(s: Sched, n: int) {
    forall r, i :: 0 <= r < |s| && 0 <= i < |s[r]| ==>
      0 <= s[r][i].home < n && 0 <= s[r][i].away < n
  }

  /** All matches of the schedule, round after round. */
  function Flatten(s: Sched): seq<Match> {
    if s == [] then [] else s[0] + Flatten(s[1..])
  }

  function Mapped(x: seq<Match>, f: Match -> Match): (y: seq<Match>)
    ensures |y| == |x|
    ensures forall j :: 0 <= j < |x| ==> y[j] == f(x[j])
  {
    seq(|x|, j requires 0 <= j < |x| => f(x[j]))
  }

  function Identity(m: Match): Match {
    m
  }

  /** The multiset of the schedule's matches, each seen through f. */
  function BagBy(s: Sched, f: Match -> Match): multiset<Match> {
    multiset(Mapped(Flatten(s), f))
  }

  /** The multiset of (home, away) matches of the schedule. */
  function MatchBag(s: Sched): multiset<Match> {
    BagBy(s, Identity)
  }

  /** The multiset of unordered pairings of the schedule. */
  function PairBag(s: Sched): multiset<Match> {
    BagBy(s, Key)
  }

  /** The single round robin property over teams [0, n): each unordered pair meets exactly once. */
  predicate CoversEachPairOnce(s: Sched, n: int) {
    forall a, b :: 0 <= a < b < n ==> PairBag(s)[Match(a, b)] == 1
  }

  /**
   * Exchange the match in slot (r1, i1) with the one in slot (r2, i2), as the
   * tuple assignment `x[r1][i1], x[r2][i2] = x[r2][i2], x[r1][i1]` does: the
   * second slot is written last.
   */
  function SwapSlots(s: Sched, r1: nat, i1: nat, r2: nat, i2: nat): (t: Sched)
    requires r1 < |s| && i1 < |s[r1]| && r2 < |s| && i2 < |s[r2]|
    ensures |t| == |s|
    ensures forall r :: 0 <= r < |s| ==> |t[r]| == |s[r]|
    ensures t[r2][i2] == s[r1][i1]
    ensures (r1, i1) != (r2, i2) ==> t[r1][i1] == s[r2][i2]
    ensures forall r, i :: 0 <= r < |s| && 0 <= i < |s[r]| && (r, i) != (r1, i1) && (r, i) != (r2, i2) ==>
      t[r][i] == s[r][i]
  {
    var m1 := s[r1][i1];
    var m2 := s[r2][i2];
    var s1 := s[r1 := s[r1][i1 := m2]];
    s1[r2 := s1[r2][i2 := m1]]
  }

  // ----- Flatten and bags -----

  lemma {:induction false} FlattenSplit(s: Sched, r: nat)
    requires r < |s|
    ensures Flatten(s) == Flatten(s[..r]) + s[r] + Flatten(s[r + 1..])
  {
    if r == 0 {
      assert s[..0] == [];
      assert Flatten(s[..0]) == [];
    } else {
      FlattenSplit(s[1..], r - 1);
      assert s[1..][..r - 1] == s[1..r];
      assert s[1..][r - 1] == s[r];
      assert s[1..][r..] == s[r + 1..];
      var p := s[..r];
      assert p[0] == s[0] && p[1..] == s[1..r];
      assert Flatten(p) == s[0] + Flatten(s[1..r]);
    }
  }

  lemma MappedConcat(a: seq<Match>, b: seq<Match>, f: Match -> Match)
    ensures Mapped(a + b, f) == Mapped(a, f) + Mapped(b, f)
  {
  }

  /** Replacing one round changes the bag by exactly that round's contribution. */
  lemma BagReplaceRound(s: Sched, r: nat, x: Round, f: Match -> Match)
    requires r < |s|
    ensures BagBy(s[r := x], f) + multiset(Mapped(s[r], f)) == BagBy(s, f) + multiset(Mapped(x, f))
  {
    var t := s[r := x];
    FlattenSplit(s, r);
    FlattenSplit(t, r);
    assert t[..r] == s[..r];
    assert t[r + 1..] == s[r + 1..];
    var pre := Flatten(s[..r]);
    var post := Flatten(s[r + 1..]);
    MappedConcat(pre + s[r], post, f);
    MappedConcat(pre, s[r], f);
    MappedConcat(pre + x, post, f);
    MappedConcat(pre, x, f);
  }

  /** Replacing one match of a round changes the round's bag by that match alone. */
  lemma BagReplaceSlot(s: Sched, r: nat, i: nat, m: Match, f: Match -> Match)
    requires r < |s| && i < |s[r]|
    ensures BagBy(s[r := s[r][i := m]], f) + multiset{f(s[r][i])} == BagBy(s, f) + multiset{f(m)}
  {
    BagReplaceRound(s, r, s[r][i := m], f);
    assert Mapped(s[r][i := m], f) == Mapped(s[r], f)[i := f(m)];
    var a, b := f(s[r][i]), f(m);
    var before, after := multiset(Mapped(s[r], f)), multiset(Mapped(s[r][i := m], f));
    assert after + multiset{a} == before + multiset{b};
    var lhs := BagBy(s[r := s[r][i := m]], f) + multiset{a};
    var rhs := BagBy(s, f) + multiset{b};
    forall e ensures lhs[e] == rhs[e] {
      assert (BagBy(s[r := s[r][i := m]], f) + before)[e] == (BagBy(s, f) + after)[e];
      assert (after + multiset{a})[e] == (before + multiset{b})[e];
    }
    assert lhs == rhs;
  }

  /** Exchanging two slots permutes the schedule's matches, whatever view f is taken of them. */
  lemma SwapSlotsKeepsBag(s: Sched, r1: nat, i1: nat, r2: nat, i2: nat, f: Match -> Match)
    requires r1 < |s| && i1 < |s[r1]| && r2 < |s| && i2 < |s[r2]|
    ensures BagBy(SwapSlots(s, r1, i1, r2, i2), f) == BagBy(s, f)
  {
    var m1 := s[r1][i1];
    var m2 := s[r2][i2];
    var s1 := s[r1 := s[r1][i1 := m2]];
    BagReplaceSlot(s, r1, i1, m2, f);
    BagReplaceSlot(s1, r2, i2, m1, f);
    assert s1[r2][i2] == m2;
    var t := SwapSlots(s, r1, i1, r2, i2);
    assert t == s1[r2 := s1[r2][i2 := m1]];
    forall e ensures BagBy(t, f)[e] == BagBy(s, f)[e] {
      assert (BagBy(s1, f) + multiset{f(m1)})[e] == (BagBy(s, f) + multiset{f(m2)})[e];
      assert (BagBy(t, f) + multiset{f(m2)})[e] == (BagBy(s1, f) + multiset{f(m1)})[e];
    }
    assert BagBy(t, f) == BagBy(s, f);
  }

  lemma SwapSlotsKeepsMatchBag(s: Sched, r1: nat, i1: nat, r2: nat, i2: nat)
    requires r1 < |s| && i1 < |s[r1]| && r2 < |s| && i2 < |s[r2]|
    ensures MatchBag(SwapSlots(s, r1, i1, r2, i2)) == MatchBag(s)
    ensures PairBag(SwapSlots(s, r1, i1, r2, i2)) == PairBag(s)
  {
    SwapSlotsKeepsBag(s, r1, i1, r2, i2, Identity);
    SwapSlotsKeepsBag(s, r1, i1, r2, i2, Key);
  }

  /** Every slot of the schedule is an element of its flattening, and conversely. */
  lemma {:induction false} FlattenMembers(s: Sched)
    ensures forall r, i :: 0 <= r < |s| && 0 <= i < |s[r]| ==> s[r][i] in Flatten(s)
    ensures forall m :: m in Flatten(s) ==> exists r, i :: 0 <= r < |s| && 0 <= i < |s[r]| && s[r][i] == m
  {
    if s != [] {
      FlattenMembers(s[1..]);
      forall m | m in Flatten(s)
        ensures exists r, i :: 0 <= r < |s| && 0 <= i < |s[r]| && s[r][i] == m
      {
        if m in s[0] {
          var i :| 0 <= i < |s[0]| && s[0][i] == m;
          assert s[0][i] == m;
        } else {
          assert m in Flatten(s[1..]);
          var r, i :| 0 <= r < |s[1..]| && 0 <= i < |s[1..][r]| && s[1..][r][i] == m;
          assert s[r + 1][i] == m;
        }
      }
    }
  }

  /** The pairing of every slot is in the pairing bag. */
  lemma SlotInPairBag(s: Sched, r: nat, i: nat)
    requires r < |s| && i < |s[r]|
    ensures Key(s[r][i]) in PairBag(s)
  {
    var j := FlattenIndex(s, r, i);
    assert Mapped(Flatten(s), Key)[j] == Key(s[r][i]);
  }

  /** Where slot (r, i) lands in the flattening. */
  lemma {:induction false} FlattenIndex(s: Sched, r: nat, i: nat) returns (j: nat)
    requires r < |s| && i < |s[r]|
    ensures j < |Flatten(s)| && Flatten(s)[j] == s[r][i]
    decreases r
  {
    assert Flatten(s) == s[0] + Flatten(s[1..]);
    if r == 0 {
      j := i;
    } else {
      var k := FlattenIndex(s[1..], r - 1, i);
      j := |s[0]| + k;
    }
  }

  /** Every pairing in the bag comes from some slot. */
  lemma PairBagHasSlot(s: Sched, k: Match) returns (r: nat, i: nat)
    requires k in PairBag(s)
    ensures r < |s| && i < |s[r]| && Key(s[r][i]) == k
  {
    FlattenMembers(s);
    var fs := Flatten(s);
    var ks := Mapped(fs, Key);
    var j :| 0 <= j < |ks| && ks[j] == k;
    assert fs[j] in fs;
    r, i :| 0 <= r < |s| && 0 <= i < |s[r]| && s[r][i] == fs[j];
  }

  /** Equal pairing bags mean equal sets of ids, so the range property transfers. */
  lemma IdsWithinByPairBag(a: Sched, b: Sched, n: int)
    requires PairBag(a) == PairBag(b)
    requires IdsWithin(a, n)
    ensures IdsWithin(b, n)
  {
    forall r, i | 0 <= r < |b| && 0 <= i < |b[r]|
      ensures 0 <= b[r][i].home < n && 0 <= b[r][i].away < n
    {
      SlotInPairBag(b, r, i);
      var r', i' := PairBagHasSlot(a, Key(b[r][i]));
      assert 0 <= a[r'][i'].home < n && 0 <= a[r'][i'].away < n;
    }
  }

  // ----- Small facts used by the generators and the moves -----

  /** A match whose teams avoid every match of a repeat-free round can be put in front of it. */
  lemma ConsNoRepeat(x: Match, rest: Round)
    requires NoRepeatedTeam(rest)
    requires !SelfPlay(x)
    requires forall j :: 0 <= j < |rest| ==> TeamSet(x) !! TeamSet(rest[j])
    ensures NoRepeatedTeam([x] + rest)
  {
    var s := [x] + rest;
    forall i, j | 0 <= i < j < |s|
      ensures TeamSet(s[i]) !! TeamSet(s[j])
    {
      if i > 0 {
        assert s[i] == rest[i - 1] && s[j] == rest[j - 1];
      } else {
        assert s[j] == rest[j - 1];
      }
    }
  }

  lemma BagFirstRound(s: Sched, f: Match -> Match)
    requires s != []
    ensures BagBy(s, f) == multiset(Mapped(s[0], f)) + BagBy(s[1..], f)
  {
    MappedConcat(s[0], Flatten(s[1..]), f);
  }

  /** A view absent from every round is absent from the bag. */
  lemma {:induction false} BagAbsent(s: Sched, f: Match -> Match, x: Match)
    requires forall r :: 0 <= r < |s| ==> x !in Mapped(s[r], f)
    ensures BagBy(s, f)[x] == 0
  {
    if s != [] {
      BagFirstRound(s, f);
      BagAbsent(s[1..], f, x);
      assert x !in Mapped(s[0], f);
    }
  }

  /** A view met once in one round and nowhere else occurs once in the bag. */
  lemma {:induction false} BagSingleRound(s: Sched, f: Match -> Match, x: Match, rs: nat)
    requires rs < |s|
    requires multiset(Mapped(s[rs], f))[x] == 1
    requires forall r :: 0 <= r < |s| && r != rs ==> x !in Mapped(s[r], f)
    ensures BagBy(s, f)[x] == 1
  {
    BagFirstRound(s, f);
    if rs == 0 {
      forall r | 0 <= r < |s[1..]|
        ensures x !in Mapped(s[1..][r], f)
      {
        assert s[1..][r] == s[r + 1];
      }
      BagAbsent(s[1..], f, x);
    } else {
      assert x !in Mapped(s[0], f);
      forall r | 0 <= r < |s[1..]| && r != rs - 1
        ensures x !in Mapped(s[1..][r], f)
      {
        assert s[1..][r] == s[r + 1];
      }
      BagSingleRound(s[1..], f, x, rs - 1);
    }
  }

  /** An element found at exactly one index of a sequence occurs once in its multiset. */
  lemma CountUnique<T>(s: seq<T>, x: T, j: nat)
    requires j < |s| && s[j] == x
    requires forall i :: 0 <= i < |s| && i != j ==> s[i] != x
    ensures multiset(s)[x] == 1
  {
    assert s == s[..j] + [x] + s[j + 1..];
    assert x !in s[..j];
    assert x !in s[j + 1..];
  }
}
