/** Selection of the pair to evaluate: the two Revealed, unmatched cards with
    the lowest CardIds. The match-evaluation utility finds them in one
    streaming pass with int.MaxValue sentinels; the matched system collects,
    sorts by CardId and takes the first two. Both are modelled, and both are
    shown to pick the same pair whatever order the query visits the cards in. */
module Selection {
  import opened Common
  import opened Ecs

  /** A hit of the RevealedUnmatched query: an entity handle and its CardId. */
  datatype Cand = Cand(entity: int, id: int)

  /** A card the RevealedUnmatched query (CardId, Revealed, not Matched) visits. */
  predicate IsCandidate(c: Card) {
    c.revealed && !c.matched
  }

  /** The query's hits, in iteration order. */
  function Candidates(cards: seq<Card>): (cs: seq<Cand>)
    ensures forall e :: 0 <= e < |cards| && IsCandidate(cards[e]) ==> Cand(e, cards[e].cardId) in cs
    ensures forall k :: 0 <= k < |cs| ==> HitOf(cards, cs[k])
    ensures forall i, j :: 0 <= i < j < |cs| ==> cs[i].entity < cs[j].entity
  {
    if |cards| == 0 then []
    else
      var n := |cards| - 1;
      Candidates(cards[..n]) + (if IsCandidate(cards[n]) then [Cand(n, cards[n].cardId)] else [])
  }

  /** `c` is the hit for a Revealed, unmatched card of `cards`. */
  predicate HitOf(cards: seq<Card>, c: Cand) {
    0 <= c.entity < |cards| && IsCandidate(cards[c.entity]) && c.id == cards[c.entity].cardId
  }

  /** The number of Revealed, unmatched cards. */
  function RevealedUnmatched(cards: seq<Card>): nat {
    |Candidates(cards)|
  }

  /** Replacing one card changes the count by that card's own contribution. */
  lemma {:induction false} RevealedUnmatchedUpdate(cards: seq<Card>, e: nat, c: Card)
    requires e < |cards|
    ensures RevealedUnmatched(cards[e := c]) ==
      RevealedUnmatched(cards) - (if IsCandidate(cards[e]) then 1 else 0) + (if IsCandidate(c) then 1 else 0)
  {
    var n := |cards| - 1;
    if e < n {
      RevealedUnmatchedUpdate(cards[..n], e, c);
      assert cards[e := c][..n] == cards[..n][e := c];
    } else {
      assert cards[e := c][..n] == cards[..n];
    }
  }

  /** No card is a candidate exactly when there are none to count. */
  lemma NoneRevealedUnmatched(cards: seq<Card>)
    ensures RevealedUnmatched(cards) == 0 <==> forall e :: 0 <= e < |cards| ==> !IsCandidate(cards[e])
  {
    if RevealedUnmatched(cards) > 0 {
      var c := Candidates(cards)[0];
      assert IsCandidate(cards[c.entity]);
    }
  }

  // ---------------------------------------------------------------------------
  // What "the two lowest" means

  /** No two hits share a CardId. */
  predicate UniqueIds(cs: seq<Cand>) {
    forall i, j :: 0 <= i < j < |cs| ==> cs[i].id != cs[j].id
  }

  /** Every CardId is below the sentinel int.MaxValue. */
  predicate BelowSentinel(cs: seq<Cand>) {
    forall k :: 0 <= k < |cs| ==> cs[k].id < IntMax
  }

  /** `a` and `b` are hits, in ascending CardId order, and every other hit has
      a larger CardId than both. */
  predicate IsLowestTwo(cs: seq<Cand>, a: Cand, b: Cand) {
    && a in cs && b in cs && a.id < b.id
    && forall c :: c in cs ==> c == a || c == b || b.id < c.id
  }

  /** Distinct CardIds make the CardId identify the hit. */
  lemma UniqueIdsIdentify(cs: seq<Cand>, x: Cand, y: Cand)
    requires UniqueIds(cs) && x in cs && y in cs && x.id == y.id
    ensures x == y
  {
    var i :| 0 <= i < |cs| && cs[i] == x;
    var j :| 0 <= j < |cs| && cs[j] == y;
    assert i == j;
  }

  /** The lowest pair is determined by the hits. */
  lemma LowestTwoUnique(cs: seq<Cand>, a: Cand, b: Cand, a': Cand, b': Cand)
    requires UniqueIds(cs)
    requires IsLowestTwo(cs, a, b) && IsLowestTwo(cs, a', b')
    ensures a == a' && b == b'
  {
    if a != a' {
      if a.id == a'.id {
        UniqueIdsIdentify(cs, a, a');
      }
    }
    if b != b' {
      if b.id == b'.id {
        UniqueIdsIdentify(cs, b, b');
      }
    }
  }

  /** Cards whose CardIds are pairwise distinct and below int.MaxValue, as on
      every dealt board. */
  predicate SelectableIds(cards: seq<Card>) {
    && (forall i, j :: 0 <= i < j < |cards| ==> cards[i].cardId != cards[j].cardId)
    && (forall i :: 0 <= i < |cards| ==> cards[i].cardId < IntMax)
  }

  /** The query's hits then have distinct CardIds below the sentinel. */
  lemma CandidatesSelectable(cards: seq<Card>)
    requires SelectableIds(cards)
    ensures UniqueIds(Candidates(cards)) && BelowSentinel(Candidates(cards))
  {
    var cs := Candidates(cards);
    forall i, j | 0 <= i < j < |cs|
      ensures cs[i].id != cs[j].id
    {
      assert HitOf(cards, cs[i]) && HitOf(cards, cs[j]);
    }
    forall k | 0 <= k < |cs|
      ensures cs[k].id < IntMax
    {
      assert HitOf(cards, cs[k]);
    }
  }

  /** The hits depend only on each card's CardId, Revealed and Matched. */
  predicate SameFlags(a: seq<Card>, b: seq<Card>) {
    |a| == |b| && forall i :: 0 <= i < |a| ==>
      a[i].cardId == b[i].cardId && a[i].revealed == b[i].revealed && a[i].matched == b[i].matched
  }

  lemma {:induction false} CandidatesByFlags(a: seq<Card>, b: seq<Card>)
    requires SameFlags(a, b)
    ensures Candidates(a) == Candidates(b)
  {
    if |a| > 0 {
      var n := |a| - 1;
      CandidatesByFlags(a[..n], b[..n]);
    }
  }

  // ---------------------------------------------------------------------------
  // The streaming two-minimum of the match-evaluation utility

  /** The scan's locals: the two best entities and CardIds so far and the
      saturating hit count. */
  datatype Scan = Scan(first: int, firstId: int, second: int, secondId: int, count: nat)

  /** Both entities default, both CardIds at the sentinel, nothing found. */
  const ScanStart: Scan := Scan(NullEntity, IntMax, NullEntity, IntMax, 0)

  /** The query callback, applied to one hit. */
  function ScanStep(s: Scan, c: Cand): Scan {
    if s.count == 0 then Scan(c.entity, c.id, s.second, s.secondId, 1)
    else
      var t :=
        if c.id < s.firstId then Scan(c.entity, c.id, s.first, s.firstId, s.count)
        else if c.id < s.secondId then s.(second := c.entity, secondId := c.id)
        else s;
      if t.count == 1 then t.(count := 2) else t
  }

  /** The scan over all hits, in iteration order. */
  function ScanAll(cs: seq<Cand>): (s: Scan)
    ensures s.count == if |cs| < 2 then |cs| else 2
  {
    if |cs| == 0 then ScanStart else ScanStep(ScanAll(cs[..|cs| - 1]), cs[|cs| - 1])
  }

  /** TryGetTwoRevealedUnmatched of the match-evaluation utility: the two
      entities, or None (false with default entities) for fewer than two hits. */
  function StreamTwoLowest(cs: seq<Cand>): (r: Option<(int, int)>)
    ensures r.None? <==> |cs| < 2
  {
    var s := ScanAll(cs);
    if s.count < 2 then None else Some((s.first, s.second))
  }

  /** What the scan's locals hold after the hits `cs`: nothing, the single
      hit with the second slot at the sentinel, or the lowest two hits. */
  predicate ScanHolds(cs: seq<Cand>, s: Scan) {
    if |cs| == 0 then s == ScanStart
    else if |cs| == 1 then s.count == 1 && Cand(s.first, s.firstId) == cs[0] && s.secondId == IntMax
    else s.count == 2 && IsLowestTwo(cs, Cand(s.first, s.firstId), Cand(s.second, s.secondId))
  }

  /** `x` has a CardId no hit of `p` has, below the sentinel. */
  predicate FreshHit(p: seq<Cand>, x: Cand) {
    x.id < IntMax && forall c :: c in p ==> c.id != x.id
  }

  /** One callback keeps the scan's meaning: the second-hit case. */
  lemma ScanStepSecond(p: seq<Cand>, s: Scan, x: Cand)
    requires |p| == 1 && ScanHolds(p, s) && FreshHit(p, x)
    ensures ScanHolds(p + [x], ScanStep(s, x))
  {
    var cs := p + [x];
    assert forall c :: c in cs <==> c == p[0] || c == x;
  }

  /** One callback keeps the scan's meaning: from the third hit on. */
  lemma ScanStepLater(p: seq<Cand>, s: Scan, x: Cand)
    requires |p| >= 2 && ScanHolds(p, s) && FreshHit(p, x)
    ensures ScanHolds(p + [x], ScanStep(s, x))
  {
    var cs := p + [x];
    assert forall c :: c in cs <==> c in p || c == x;
    var a, b := Cand(s.first, s.firstId), Cand(s.second, s.secondId);
    assert a in p && b in p;
    assert x.id != a.id && x.id != b.id;
  }

  /** With distinct CardIds below the sentinel the scan ends with the lowest
      two hits in ascending order. */
  lemma {:induction false} ScanKeepsLowestTwo(cs: seq<Cand>)
    requires UniqueIds(cs) && BelowSentinel(cs)
    ensures ScanHolds(cs, ScanAll(cs))
  {
    if |cs| >= 1 {
      var n := |cs| - 1;
      var p, x := cs[..n], cs[n];
      assert cs == p + [x];
      ScanKeepsLowestTwo(p);
      assert FreshHit(p, x) by {
        assert forall k :: 0 <= k < n ==> p[k].id != x.id;
      }
      if n == 1 {
        ScanStepSecond(p, ScanAll(p), x);
      } else if n >= 2 {
        ScanStepLater(p, ScanAll(p), x);
      }
    }
  }

  /** The streaming selection returns the lowest two hits. */
  lemma StreamIsLowestTwo(cs: seq<Cand>)
    requires UniqueIds(cs) && BelowSentinel(cs) && |cs| >= 2
    ensures StreamTwoLowest(cs).Some?
    ensures IsLowestTwo(cs, Cand(ScanAll(cs).first, ScanAll(cs).firstId), Cand(ScanAll(cs).second, ScanAll(cs).secondId))
    ensures StreamTwoLowest(cs).value == (ScanAll(cs).first, ScanAll(cs).second)
  {
    ScanKeepsLowestTwo(cs);
  }

  // ---------------------------------------------------------------------------
  // The sort-based selection of the matched system

  /** Ascending by CardId. */
  predicate SortedById(s: seq<Cand>) {
    forall i, j :: 0 <= i < j < |s| ==> s[i].id <= s[j].id
  }

  /** One insertion step of the reference sort: `c` goes before the first
      element whose CardId is not smaller. */
  function InsertById(c: Cand, s: seq<Cand>): (r: seq<Cand>)
    ensures |r| == |s| + 1
    ensures multiset(r) == multiset(s) + multiset{c}
    ensures r[0] == c || (|s| > 0 && r[0] == s[0])
  {
    if |s| == 0 then [c]
    else if c.id <= s[0].id then [c] + s
    else
      assert s == [s[0]] + s[1..];
      [s[0]] + InsertById(c, s[1..])
  }

  /** Every element of `s` has a CardId other than `id`. */
  predicate IdsAvoid(s: seq<Cand>, id: int) {
    forall k :: 0 <= k < |s| ==> s[k].id != id
  }

  lemma {:induction false} InsertKeepsSorted(c: Cand, s: seq<Cand>)
    requires SortedById(s)
    ensures SortedById(InsertById(c, s))
  {
    if |s| > 0 && c.id > s[0].id {
      InsertKeepsSorted(c, s[1..]);
    }
  }

  lemma {:induction false} InsertKeepsUnique(c: Cand, s: seq<Cand>)
    requires UniqueIds(s) && IdsAvoid(s, c.id)
    ensures UniqueIds(InsertById(c, s))
  {
    if |s| > 0 && c.id > s[0].id {
      var rest := InsertById(c, s[1..]);
      InsertKeepsUnique(c, s[1..]);
      forall k | 0 <= k < |rest|
        ensures rest[k].id != s[0].id
      {
        assert rest[k] in multiset(rest);
        if rest[k] != c {
          assert rest[k] in multiset(s[1..]);
          var j :| 0 <= j < |s[1..]| && s[1..][j] == rest[k];
          assert s[j + 1] == rest[k];
        }
      }
      assert InsertById(c, s) == [s[0]] + rest;
    }
  }

  /** `candidates.Sort` by CardId, as an insertion sort. */
  function SortById(cs: seq<Cand>): (r: seq<Cand>)
    ensures |r| == |cs| && multiset(r) == multiset(cs)
  {
    if |cs| == 0 then []
    else
      var n := |cs| - 1;
      assert cs == cs[..n] + [cs[n]];
      InsertById(cs[n], SortById(cs[..n]))
  }

  /** The sorted hits are exactly the hits. */
  lemma SortSameMembers(cs: seq<Cand>, x: Cand)
    ensures x in SortById(cs) <==> x in cs
  {
    assert x in SortById(cs) <==> x in multiset(SortById(cs));
  }

  lemma {:induction false} SortSorted(cs: seq<Cand>)
    ensures SortedById(SortById(cs))
  {
    if |cs| > 0 {
      var n := |cs| - 1;
      SortSorted(cs[..n]);
      InsertKeepsSorted(cs[n], SortById(cs[..n]));
    }
  }

  lemma {:induction false} SortUnique(cs: seq<Cand>)
    requires UniqueIds(cs)
    ensures UniqueIds(SortById(cs))
  {
    if |cs| > 0 {
      var n := |cs| - 1;
      var p := cs[..n];
      assert UniqueIds(p);
      SortUnique(p);
      var sp := SortById(p);
      assert IdsAvoid(p, cs[n].id);
      PermutationAvoids(p, sp, cs[n].id);
      InsertKeepsUnique(cs[n], sp);
    }
  }

  /** A rearrangement keeps every CardId away from `id` if the original did. */
  lemma PermutationAvoids(p: seq<Cand>, q: seq<Cand>, id: int)
    requires multiset(q) == multiset(p) && IdsAvoid(p, id)
    ensures IdsAvoid(q, id)
  {
    forall k | 0 <= k < |q|
      ensures q[k].id != id
    {
      assert q[k] in multiset(p);
      var j :| 0 <= j < |p| && p[j] == q[k];
    }
  }

  /** TryGetTwoRevealedUnmatched of the matched system. */
  function SortedTwoLowest(cs: seq<Cand>): (r: Option<(int, int)>)
    ensures r.None? <==> |cs| < 2
  {
    if |cs| < 2 then None
    else
      var s := SortById(cs);
      Some((s[0].entity, s[1].entity))
  }

  /** The head of a strictly ascending arrangement of the hits is the lowest two. */
  lemma AscendingHeadLowest(cs: seq<Cand>, s: seq<Cand>)
    requires |s| >= 2 && SortedById(s) && UniqueIds(s)
    requires forall x :: x in s <==> x in cs
    ensures IsLowestTwo(cs, s[0], s[1])
  {
    forall c | c in cs
      ensures c == s[0] || c == s[1] || s[1].id < c.id
    {
      var k :| 0 <= k < |s| && s[k] == c;
    }
  }

  /** The first two elements of the sorted hits are the lowest two. */
  lemma SortedIsLowestTwo(cs: seq<Cand>)
    requires UniqueIds(cs) && |cs| >= 2
    ensures IsLowestTwo(cs, SortById(cs)[0], SortById(cs)[1])
  {
    var s := SortById(cs);
    SortSorted(cs);
    SortUnique(cs);
    forall x
      ensures x in s <==> x in cs
    {
      SortSameMembers(cs, x);
    }
    AscendingHeadLowest(cs, s);
  }

  /** Every element of the sorted hits is a hit. */
  lemma SortedHit(cards: seq<Card>, x: Cand)
    requires x in SortById(Candidates(cards))
    ensures HitOf(cards, x)
  {
    var cs := Candidates(cards);
    SortSameMembers(cs, x);
    var i :| 0 <= i < |cs| && cs[i] == x;
  }

  /** The sort-based selection picks revealed, unmatched cards; with distinct
      CardIds they are two different cards. */
  lemma SortedPairCards(cards: seq<Card>)
    requires RevealedUnmatched(cards) >= 2
    ensures SortedTwoLowest(Candidates(cards)).Some?
    ensures HitOf(cards, SortById(Candidates(cards))[0]) && HitOf(cards, SortById(Candidates(cards))[1])
    ensures SortedTwoLowest(Candidates(cards)).value == (SortById(Candidates(cards))[0].entity, SortById(Candidates(cards))[1].entity)
    ensures UniqueIds(Candidates(cards)) ==>
      SortById(Candidates(cards))[0].entity != SortById(Candidates(cards))[1].entity
  {
    var cs := Candidates(cards);
    var s := SortById(cs);
    SortedHit(cards, s[0]);
    SortedHit(cards, s[1]);
    if UniqueIds(cs) {
      SortUnique(cs);
    }
  }

  /** The streaming scan and the sort select the same pair. */
  lemma StreamEqualsSorted(cs: seq<Cand>)
    requires UniqueIds(cs) && BelowSentinel(cs)
    ensures StreamTwoLowest(cs) == SortedTwoLowest(cs)
  {
    if |cs| >= 2 {
      StreamIsLowestTwo(cs);
      SortedIsLowestTwo(cs);
      var s := ScanAll(cs);
      var t := SortById(cs);
      LowestTwoUnique(cs, Cand(s.first, s.firstId), Cand(s.second, s.secondId), t[0], t[1]);
    }
  }

  /** Whatever order the query visits the same hits in, the same pair is chosen. */
  lemma SelectionOrderIndependent(cs: seq<Cand>, cs': seq<Cand>)
    requires multiset(cs) == multiset(cs')
    requires UniqueIds(cs) && UniqueIds(cs') && BelowSentinel(cs) && BelowSentinel(cs')
    ensures StreamTwoLowest(cs) == StreamTwoLowest(cs')
    ensures SortedTwoLowest(cs) == SortedTwoLowest(cs')
  {
    assert |cs| == |multiset(cs)| == |multiset(cs')| == |cs'|;
    if |cs| >= 2 {
      StreamIsLowestTwo(cs);
      StreamIsLowestTwo(cs');
      var s, s' := ScanAll(cs), ScanAll(cs');
      assert forall c :: c in cs <==> c in cs' by {
        forall c
          ensures c in cs <==> c in cs'
        {
          assert c in cs <==> c in multiset(cs);
          assert c in cs' <==> c in multiset(cs');
        }
      }
      assert IsLowestTwo(cs, Cand(s'.first, s'.firstId), Cand(s'.second, s'.secondId));
      LowestTwoUnique(cs, Cand(s.first, s.firstId), Cand(s.second, s.secondId),
        Cand(s'.first, s'.firstId), Cand(s'.second, s'.secondId));
    }
    StreamEqualsSorted(cs);
    StreamEqualsSorted(cs');
  }
}
