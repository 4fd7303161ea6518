/**
 * spotit_game_logic.py: the emoji table, the deck built from the projective plane
 * PG(2,7) by generate_cards, shuffle_cards, and the SpotItGame state object.
 *
 * Randomness (random.shuffle, random.randint) is taken as input: a `Random`
 * value supplies the swap choices and the numbers each call would have drawn,
 * and `ValidRandom` states the ranges Python's functions guarantee.
 */
module GameLogic {

  import opened Util
  import opened Plane

  // ---------------------------------------------------------------------------
  // The emoji table
  // ---------------------------------------------------------------------------

  const EmojiRow1: seq<string> :=
    ["\U{1F600}", "\U{1F602}", "\U{1F970}", "\U{1F60E}", "\U{1F62D}", "\U{1F621}", "\U{1F44D}", "\U{1F444}", "\U{1F64F}", "\U{1F4AA}"]
  const EmojiRow2: seq<string> :=
    ["\U{1F525}", "\U{1F423}", "\U{1F389}", "\U{1F3B6}", "\U{1F680}", "\U{1F355}", "\U{1F354}", "\U{1F34E}", "\U{26BD}", "\U{1F3C0}"]
  const EmojiRow3: seq<string> :=
    ["\U{1F436}", "\U{1F431}", "\U{1F43C}", "\U{1F984}", "\U{1F308}", "\U{1F344}", "\U{1F30D}", "\U{1F319}", "\U{2600}\U{FE0F}", "\U{2B50}"]
  const EmojiRow4: seq<string> :=
    ["\U{1F3E1}", "\U{1F3D6}\U{FE0F}", "\U{1F6D2}", "\U{2708}\U{FE0F}", "\U{1F697}", "\U{1F6B2}", "\U{1F4A1}", "\U{1F4DA}", "\U{1F4BB}", "\U{1F4F1}"]
  const EmojiRow5: seq<string> :=
    ["\U{1F3AE}", "\U{1F3A8}", "\U{1F3A4}", "\U{1F3C6}", "\U{1F947}", "\U{1F948}", "\U{1F949}", "\U{1F6B4}", "\U{1F3C3}", "\U{1F9D8}"]
  const EmojiRow6: seq<string> :=
    ["\U{1F6CC}", "\U{1F445}", "\U{1F6EC}", "\U{1F4F7}", "\U{1F3A5}", "\U{1F9F8}", "\U{1F48E}"]

  /** ALL_EMOJIS: the 57 symbols, one per point of the plane. */
  const ALL_EMOJIS: seq<string> :=
    EmojiRow1 + EmojiRow2 + EmojiRow3 + EmojiRow4 + EmojiRow5 + EmojiRow6

  /** The position of an emoji in ALL_EMOJIS, read off its first code point (-1 if absent). */
  function EmojiId(e: string): (id: int)
  {
    if |e| == 0 then -1 else CodePointId(e[0])
  }

  /** A binary search over the first code points of the 57 emojis, in code point order. */
  function CodePointId(c: char): int
  {
    if c < '\U{1F44D}' then
      if c < '\U{1F3A8}' then
        if c < '\U{1F344}' then
          if c < '\U{2B50}' then
            if c < '\U{26BD}' then
              if c == '\U{2600}' then 28 else -1
            else
              if c < '\U{2708}' then
                if c == '\U{26BD}' then 18 else -1
              else
                if c == '\U{2708}' then 33 else -1
          else
            if c < '\U{1F30D}' then
              if c < '\U{1F308}' then
                if c == '\U{2B50}' then 29 else -1
              else
                if c == '\U{1F308}' then 24 else -1
            else
              if c < '\U{1F319}' then
                if c == '\U{1F30D}' then 26 else -1
              else
                if c == '\U{1F319}' then 27 else -1
        else
          if c < '\U{1F355}' then
            if c < '\U{1F34E}' then
              if c == '\U{1F344}' then 25 else -1
            else
              if c < '\U{1F354}' then
                if c == '\U{1F34E}' then 17 else -1
              else
                if c == '\U{1F354}' then 16 else -1
          else
            if c < '\U{1F3A4}' then
              if c < '\U{1F389}' then
                if c == '\U{1F355}' then 15 else -1
              else
                if c == '\U{1F389}' then 12 else -1
            else
              if c < '\U{1F3A5}' then
                if c == '\U{1F3A4}' then 42 else -1
              else
                if c == '\U{1F3A5}' then 54 else -1
      else
        if c < '\U{1F3E1}' then
          if c < '\U{1F3C0}' then
            if c < '\U{1F3AE}' then
              if c == '\U{1F3A8}' then 41 else -1
            else
              if c < '\U{1F3B6}' then
                if c == '\U{1F3AE}' then 40 else -1
              else
                if c == '\U{1F3B6}' then 13 else -1
          else
            if c < '\U{1F3C6}' then
              if c < '\U{1F3C3}' then
                if c == '\U{1F3C0}' then 19 else -1
              else
                if c == '\U{1F3C3}' then 48 else -1
            else
              if c < '\U{1F3D6}' then
                if c == '\U{1F3C6}' then 43 else -1
              else
                if c == '\U{1F3D6}' then 31 else -1
        else
          if c < '\U{1F436}' then
            if c < '\U{1F423}' then
              if c == '\U{1F3E1}' then 30 else -1
            else
              if c < '\U{1F431}' then
                if c == '\U{1F423}' then 11 else -1
              else
                if c == '\U{1F431}' then 21 else -1
          else
            if c < '\U{1F444}' then
              if c < '\U{1F43C}' then
                if c == '\U{1F436}' then 20 else -1
              else
                if c == '\U{1F43C}' then 22 else -1
            else
              if c < '\U{1F445}' then
                if c == '\U{1F444}' then 7 else -1
              else
                if c == '\U{1F445}' then 51 else -1
    else
      if c < '\U{1F64F}' then
        if c < '\U{1F4F7}' then
          if c < '\U{1F4AA}' then
            if c < '\U{1F48E}' then
              if c == '\U{1F44D}' then 6 else -1
            else
              if c < '\U{1F4A1}' then
                if c == '\U{1F48E}' then 56 else -1
              else
                if c == '\U{1F4A1}' then 36 else -1
          else
            if c < '\U{1F4DA}' then
              if c < '\U{1F4BB}' then
                if c == '\U{1F4AA}' then 9 else -1
              else
                if c == '\U{1F4BB}' then 38 else -1
            else
              if c < '\U{1F4F1}' then
                if c == '\U{1F4DA}' then 37 else -1
              else
                if c == '\U{1F4F1}' then 39 else -1
        else
          if c < '\U{1F602}' then
            if c < '\U{1F525}' then
              if c == '\U{1F4F7}' then 53 else -1
            else
              if c < '\U{1F600}' then
                if c == '\U{1F525}' then 10 else -1
              else
                if c == '\U{1F600}' then 0 else -1
          else
            if c < '\U{1F621}' then
              if c < '\U{1F60E}' then
                if c == '\U{1F602}' then 1 else -1
              else
                if c == '\U{1F60E}' then 3 else -1
            else
              if c < '\U{1F62D}' then
                if c == '\U{1F621}' then 5 else -1
              else
                if c == '\U{1F62D}' then 4 else -1
      else
        if c < '\U{1F6EC}' then
          if c < '\U{1F6B2}' then
            if c < '\U{1F680}' then
              if c == '\U{1F64F}' then 8 else -1
            else
              if c < '\U{1F697}' then
                if c == '\U{1F680}' then 14 else -1
              else
                if c == '\U{1F697}' then 34 else -1
          else
            if c < '\U{1F6CC}' then
              if c < '\U{1F6B4}' then
                if c == '\U{1F6B2}' then 35 else -1
              else
                if c == '\U{1F6B4}' then 47 else -1
            else
              if c < '\U{1F6D2}' then
                if c == '\U{1F6CC}' then 50 else -1
              else
                if c == '\U{1F6D2}' then 32 else -1
        else
          if c < '\U{1F970}' then
            if c < '\U{1F948}' then
              if c < '\U{1F947}' then
                if c == '\U{1F6EC}' then 52 else -1
              else
                if c == '\U{1F947}' then 44 else -1
            else
              if c < '\U{1F949}' then
                if c == '\U{1F948}' then 45 else -1
              else
                if c == '\U{1F949}' then 46 else -1
          else
            if c < '\U{1F9D8}' then
              if c < '\U{1F984}' then
                if c == '\U{1F970}' then 2 else -1
              else
                if c == '\U{1F984}' then 23 else -1
            else
              if c < '\U{1F9F8}' then
                if c == '\U{1F9D8}' then 49 else -1
              else
                if c == '\U{1F9F8}' then 55 else -1
  }

  lemma EmojiRow1Ids()
    ensures forall i :: 0 <= i < |EmojiRow1| ==> EmojiId(EmojiRow1[i]) == 0 + i
  {
  }

  lemma EmojiRow2Ids()
    ensures forall i :: 0 <= i < |EmojiRow2| ==> EmojiId(EmojiRow2[i]) == 10 + i
  {
  }

  lemma EmojiRow3Ids()
    ensures forall i :: 0 <= i < |EmojiRow3| ==> EmojiId(EmojiRow3[i]) == 20 + i
  {
  }

  lemma EmojiRow4Ids()
    ensures forall i :: 0 <= i < |EmojiRow4| ==> EmojiId(EmojiRow4[i]) == 30 + i
  {
  }

  lemma EmojiRow5Ids()
    ensures forall i :: 0 <= i < |EmojiRow5| ==> EmojiId(EmojiRow5[i]) == 40 + i
  {
  }

  lemma EmojiRow6Ids()
    ensures forall i :: 0 <= i < |EmojiRow6| ==> EmojiId(EmojiRow6[i]) == 50 + i
  {
  }

  /** Every entry of ALL_EMOJIS is recognised by EmojiId at its own position. */
  lemma AllEmojiIds()
    ensures |ALL_EMOJIS| == Q * Q + Q + 1
    ensures forall i :: 0 <= i < |ALL_EMOJIS| ==> EmojiId(ALL_EMOJIS[i]) == i
  {
    EmojiRow1Ids(); EmojiRow2Ids(); EmojiRow3Ids(); EmojiRow4Ids(); EmojiRow5Ids(); EmojiRow6Ids();
  }

  /** The 57 emojis are pairwise different, so a card's emoji names its point. */
  lemma AllEmojisDistinct()
    ensures Distinct(ALL_EMOJIS)
  {
    AllEmojiIds();
  }

  /** The same emoji at two positions of the table means the same position. */
  lemma EmojiPositionUnique(i: int, j: int)
    requires 0 <= i < |ALL_EMOJIS| && 0 <= j < |ALL_EMOJIS| && ALL_EMOJIS[i] == ALL_EMOJIS[j]
    ensures i == j
  {
    AllEmojiIds();
    assert EmojiId(ALL_EMOJIS[i]) == i && EmojiId(ALL_EMOJIS[j]) == j;
  }

  // ---------------------------------------------------------------------------
  // Cards
  // ---------------------------------------------------------------------------

  /** One emoji placed on a card: the dict {'emoji', 'size', 'rotation', 'index'}. */
  datatype Emoji = Emoji(emoji: string, size: int, rotation: int, index: int)

  type Card = seq<Emoji>

  /** `tuple(e['emoji'] for e in line)`: the emojis of a card in order. */
  function Signature(card: Card): seq<string> {
    seq(|card|, t requires 0 <= t < |card| => card[t].emoji)
  }

  function Signatures(cards: seq<Card>): seq<seq<string>> {
    seq(|cards|, t requires 0 <= t < |cards| => Signature(cards[t]))
  }

  lemma SignaturesAppend(cards: seq<Card>, card: Card)
    ensures Signatures(cards + [card]) == Signatures(cards) + [Signature(card)]
  {
  }

  /** The set of emojis shown on a card. */
  function EmojiSet(card: Card): set<string> {
    Elements(Signature(card))
  }

  function Indices(card: Card): seq<int> {
    seq(|card|, t requires 0 <= t < |card| => card[t].index)
  }

  /** `list(range(8))`: the slots around a card that the emojis are dealt to. */
  const Slots: seq<int> := [0, 1, 2, 3, 4, 5, 6, 7]

  /** range(8) has no repeats. */
  lemma SlotsDistinct()
    ensures Distinct(Slots)
  {
    forall i, j | 0 <= i < j < |Slots|
      ensures Slots[i] != Slots[j]
    {
      assert Slots[i] == i && Slots[j] == j;
    }
  }

  /** A card as generate_cards deals it: eight emojis, each slot used once, sizes and angles in range. */
  predicate WellFormedCard(card: Card) {
    |card| == Q + 1 &&
    multiset(Indices(card)) == multiset(Slots) &&
    forall t :: 0 <= t < |card| ==> 20 <= card[t].size <= 80 && 0 <= card[t].rotation <= 360
  }

  // ---------------------------------------------------------------------------
  // Randomness
  // ---------------------------------------------------------------------------

  /**
   * The choices random.shuffle makes on a list of length n: for i from n - 1 down
   * to 1 it swaps position i with a position picks[i] in 0..i.
   */
  predicate ValidPicks(picks: seq<int>, n: int) {
    |picks| == n && forall i :: 0 <= i < n ==> 0 <= picks[i] <= i
  }

  /** random.shuffle: the Fisher-Yates swaps driven by `picks`. */
  method Shuffle<T>(s: seq<T>, picks: seq<int>) returns (r: seq<T>)
    requires ValidPicks(picks, |s|)
    ensures |r| == |s| && multiset(r) == multiset(s)
  {
    r := s;
    var i := |s| - 1;
    while i > 0
      invariant 0 <= i < |s| || (i == -1 && |s| == 0)
      invariant |r| == |s| && multiset(r) == multiset(s)
    {
      var j := picks[i];
      r := r[i := r[j]][j := r[i]];
      i := i - 1;
    }
  }

  /**
   * What generate_cards draws while building the card of line l: the shuffle of
   * the eight slots, and for the t-th emoji of the card its size and its angle.
   */
  datatype Random = Random(slotPicks: Vec -> seq<int>, size: (Vec, int) -> int, rotation: (Vec, int) -> int)

  /** random.shuffle gets valid swap choices; randint(20, 80) and randint(0, 360) include both ends. */
  ghost predicate ValidRandom(rnd: Random) {
    (forall l :: ValidPicks(rnd.slotPicks(l), |Slots|)) &&
    (forall l, t :: 20 <= rnd.size(l, t) <= 80) &&
    (forall l, t :: 0 <= rnd.rotation(l, t) <= 360)
  }

  // ---------------------------------------------------------------------------
  // Points and lines as generate_cards enumerates them
  // ---------------------------------------------------------------------------

  /** The position of (x, y, z) in the order of the three nested `range(q)` loops. */
  function Code(v: Vec): int { 49 * v.x + 7 * v.y + v.z }

  /** Different triples come at different positions of the loop order. */
  lemma CodeInjective(u: Vec, v: Vec)
    requires InRange(u) && InRange(v) && Code(u) == Code(v)
    ensures u == v
  {
    assert u.x == v.x;
    assert u.y == v.y;
  }

  /** The triples of s come in strictly increasing loop position. */
  predicate CodeSorted(s: seq<Vec>) {
    forall i, j :: 0 <= i < j < |s| ==> Code(s[i]) < Code(s[j])
  }

  /** A triple later in the loop than every listed one keeps the list in loop order. */
  lemma AppendSorted(s: seq<Vec>, v: Vec)
    requires CodeSorted(s) && forall p :: p in s ==> Code(p) < Code(v)
    ensures CodeSorted(s + [v])
  {
    forall i, j | 0 <= i < j < |s| + 1
      ensures Code((s + [v])[i]) < Code((s + [v])[j])
    {
      if j == |s| {
        assert (s + [v])[i] == s[i] && s[i] in s;
      }
    }
  }

  /**
   * A non-canonical triple comes later in the loop than its normal form: the
   * normal form has a 1 where the triple's first non-zero entry is at least 2.
   */
  lemma NormalizeCodeBelow(p: Vec)
    requires InRange(p) && NonZero(p) && !Canonical(p)
    ensures Code(Normalize(p)) < Code(p)
  {
    var r := Normalize(p);
    var k :| 1 <= k < 7 && r == Scale(k, p);
    if p.x == 0 {
      assert r.x == 0;
      if p.y == 0 {
        assert r.y == 0;
      }
    }
  }

  /** The canonical triples of s, in the order of s. */
  function CanonicalsOf(s: seq<Vec>): (r: seq<Vec>)
    ensures forall v :: v in r <==> v in s && Canonical(v)
  {
    if |s| == 0 then []
    else
      var init := CanonicalsOf(s[..|s| - 1]);
      var last := s[|s| - 1];
      assert forall v :: v in s <==> v in s[..|s| - 1] || v == last;
      if Canonical(last) then init + [last] else init
  }

  /** The canonical triples of a list in loop order are in loop order. */
  lemma {:induction false} CanonicalsSorted(s: seq<Vec>)
    requires CodeSorted(s)
    ensures CodeSorted(CanonicalsOf(s))
  {
    if |s| > 0 {
      var init := s[..|s| - 1];
      var last := s[|s| - 1];
      CanonicalsSorted(init);
      if Canonical(last) {
        forall v | v in CanonicalsOf(init)
          ensures Code(v) < Code(last)
        {
          var i :| 0 <= i < |init| && init[i] == v;
        }
        AppendSorted(CanonicalsOf(init), last);
      }
    }
  }

  /** Two lists in loop order with the same elements are the same list. */
  lemma {:induction false} SortedUnique(s: seq<Vec>, t: seq<Vec>)
    requires CodeSorted(s) && CodeSorted(t) && forall v :: v in s <==> v in t
    ensures s == t
    decreases |s|
  {
    assert Distinct(s) && Distinct(t);
    assert Elements(s) == Elements(t);
    SameElementsSameLength(s, t);
    if |s| > 0 {
      assert t[0] in t && s[0] in s;
      var i :| 0 <= i < |s| && s[i] == t[0];
      var j :| 0 <= j < |t| && t[j] == s[0];
      assert Code(s[0]) <= Code(s[i]);
      assert Code(t[0]) <= Code(t[j]);
      assert s[0] == t[0];
      forall v
        ensures v in s[1..] <==> v in t[1..]
      {
        assert v in s[1..] <==> v in s && v != s[0];
        assert v in t[1..] <==> v in t && v != t[0];
      }
      SortedUnique(s[1..], t[1..]);
      assert s == [s[0]] + s[1..] && t == [t[0]] + t[1..];
    }
  }

  /** The enumeration of the canonical points is in loop order. */
  lemma CanonicalPointsSorted()
    ensures CodeSorted(CanonicalPoints())
  {
    var s := CanonicalPoints();
    forall i | 0 <= i < |s|
      ensures Code(s[i]) == if i == 0 then 1 else if i < 8 then 6 + i else 41 + i
    {
      if 8 <= i {
        var k := i - 8;
        assert k == 7 * (k / 7) + k % 7;
      }
    }
  }

  /** The point table norm_points: each point of PG(2,7) once, in canonical form. */
  ghost predicate PointTable(np: seq<Vec>) {
    |np| == Q * Q + Q + 1 && Distinct(np) && forall v :: v in np <==> Canonical(v)
  }

  /** The emoji ids j < k whose point np[j] lies on line l, in increasing order. */
  function IncidentIds(l: Vec, np: seq<Vec>, k: nat): (ids: seq<int>)
    requires k <= |np|
    ensures forall t :: 0 <= t < |ids| ==> 0 <= ids[t] < k && Incident(l, np[ids[t]])
    ensures forall s, t :: 0 <= s < t < |ids| ==> ids[s] < ids[t]
    ensures forall j :: 0 <= j < k && Incident(l, np[j]) ==> j in ids
  {
    if k == 0 then []
    else IncidentIds(l, np, k - 1) + (if Incident(l, np[k - 1]) then [k - 1] else [])
  }

  function EmojisAt(ids: seq<int>): seq<string>
    requires forall t :: 0 <= t < |ids| ==> 0 <= ids[t] < |ALL_EMOJIS|
  {
    seq(|ids|, t requires 0 <= t < |ids| => ALL_EMOJIS[ids[t]])
  }

  /** The emojis of the card generate_cards builds for line l, in order. */
  function LineSignature(l: Vec, np: seq<Vec>): (r: seq<string>)
    requires |np| <= |ALL_EMOJIS|
    ensures forall j :: 0 <= j < |np| ==> (ALL_EMOJIS[j] in r <==> Incident(l, np[j]))
  {
    IncidentEmojis(l, np, IncidentIds(l, np, |np|));
    EmojisAt(IncidentIds(l, np, |np|))
  }

  /** An emoji is among those at the incident ids exactly when its point lies on the line. */
  lemma IncidentEmojis(l: Vec, np: seq<Vec>, ids: seq<int>)
    requires |np| <= |ALL_EMOJIS| && ids == IncidentIds(l, np, |np|)
    ensures forall j :: 0 <= j < |np| ==> (ALL_EMOJIS[j] in EmojisAt(ids) <==> Incident(l, np[j]))
  {
    var r := EmojisAt(ids);
    forall j | 0 <= j < |np|
      ensures ALL_EMOJIS[j] in r <==> Incident(l, np[j])
    {
      if ALL_EMOJIS[j] in r {
        var t :| 0 <= t < |r| && r[t] == ALL_EMOJIS[j];
        EmojiPositionUnique(ids[t], j);
      }
      if Incident(l, np[j]) {
        var t :| 0 <= t < |ids| && ids[t] == j;
        assert r[t] == ALL_EMOJIS[j];
      }
    }
  }

  /** `card` is the card of some line of the plane. */
  predicate CardOfLine(np: seq<Vec>, l: Vec, card: Card)
    requires |np| <= |ALL_EMOJIS|
  {
    InRange(l) && NonZero(l) && Signature(card) == LineSignature(l, np)
  }

  ghost predicate IsLineCard(np: seq<Vec>, card: Card)
    requires |np| <= |ALL_EMOJIS|
  {
    exists l :: CardOfLine(np, l, card)
  }

  /** The first loop of generate_cards: every non-zero triple over 0..6, in loop order. */
  method AllPoints() returns (points: seq<Vec>)
    ensures forall p :: p in points <==> InRange(p) && NonZero(p)
    ensures |points| == Q * Q * Q - 1
    ensures CodeSorted(points)
  {
    points := [];
    for x := 0 to Q
      invariant forall p :: p in points <==> InRange(p) && NonZero(p) && Code(p) < 49 * x
      invariant |points| == if x == 0 then 0 else 49 * x - 1
      invariant CodeSorted(points)
    {
      for y := 0 to Q
        invariant forall p :: p in points <==> InRange(p) && NonZero(p) && Code(p) < 49 * x + 7 * y
        invariant |points| == if x == 0 && y == 0 then 0 else 49 * x + 7 * y - 1
        invariant CodeSorted(points)
      {
        for z := 0 to Q
          invariant forall p :: p in points <==> InRange(p) && NonZero(p) && Code(p) < 49 * x + 7 * y + z
          invariant |points| == if x == 0 && y == 0 && z == 0 then 0 else 49 * x + 7 * y + z - 1
          invariant CodeSorted(points)
        {
          if Vec(x, y, z) != Zero {
            AppendSorted(points, Vec(x, y, z));
            points := points + [Vec(x, y, z)];
          }
        }
      }
    }
  }

  /**
   * One step of the dedup loop over a list of all non-zero triples in loop order:
   * the normal form of points[i] is new exactly when points[i] is itself canonical,
   * since otherwise the normal form comes earlier in the loop.
   */
  lemma NormalizedStep(points: seq<Vec>, i: int)
    requires (forall p :: p in points <==> InRange(p) && NonZero(p)) && CodeSorted(points)
    requires 0 <= i < |points|
    ensures InRange(points[i]) && NonZero(points[i])
    ensures Normalize(points[i]) in CanonicalsOf(points[..i]) <==> !Canonical(points[i])
    ensures Canonical(points[i]) ==> Normalize(points[i]) == points[i]
    ensures CanonicalsOf(points[..i + 1]) ==
            CanonicalsOf(points[..i]) + if Canonical(points[i]) then [points[i]] else []
  {
    var p := points[i];
    assert p in points;
    assert points[..i + 1][..i] == points[..i];
    if Canonical(p) {
      NormalizeCanonical(p);
      forall j | 0 <= j < i
        ensures points[j] != p
      {
        assert Code(points[j]) < Code(p);
      }
      assert p !in points[..i];
    } else {
      var r := Normalize(p);
      NormalizeCodeBelow(p);
      assert r in points;
      var j :| 0 <= j < |points| && points[j] == r;
      assert j < i;
      assert r in points[..i];
    }
  }

  /**
   * The second loop of generate_cards: the normal form of every point, keeping the
   * first occurrence only. What comes out is the point table, in the order of the
   * enumeration CanonicalPoints: (0,0,1), then (0,1,z), then (1,y,z).
   */
  method NormalizedPoints(points: seq<Vec>) returns (normPoints: seq<Vec>)
    requires forall p :: p in points <==> InRange(p) && NonZero(p)
    requires CodeSorted(points)
    ensures normPoints == CanonicalPoints()
    ensures PointTable(normPoints)
  {
    normPoints := [];
    var seen: set<Vec> := {};
    for i := 0 to |points|
      invariant normPoints == CanonicalsOf(points[..i])
      invariant seen == Elements(normPoints)
    {
      NormalizedStep(points, i);
      var np := Normalize(points[i]);
      if np !in seen {
        seen := seen + {np};
        normPoints := normPoints + [np];
      }
    }
    assert points[..|points|] == points;
    CanonicalsSorted(points);
    CanonicalPointsSorted();
    forall v
      ensures v in normPoints <==> v in CanonicalPoints()
    {
      CanonicalPointsExact(v);
      if Canonical(v) {
        NormalizeCanonical(v);
      }
    }
    SortedUnique(normPoints, CanonicalPoints());
    CanonicalPointsTable();
  }

  /** CanonicalPoints is a point table. */
  lemma CanonicalPointsTable()
    ensures PointTable(CanonicalPoints())
  {
    CanonicalPointsDistinct();
    forall v
      ensures v in CanonicalPoints() <==> Canonical(v)
    {
      CanonicalPointsExact(v);
    }
  }

  // ---------------------------------------------------------------------------
  // Properties of line cards
  // ---------------------------------------------------------------------------

  /** An id is listed exactly when it is below k and its point lies on the line. */
  lemma IncidentIdsMember(l: Vec, np: seq<Vec>, k: nat, j: int)
    requires k <= |np|
    ensures j in IncidentIds(l, np, k) <==> 0 <= j < k && Incident(l, np[j])
  {
  }

  /** Scanning further never loses an id found so far. */
  lemma {:induction false} IncidentIdsGrow(l: Vec, np: seq<Vec>, k: nat, m: nat)
    requires k <= m <= |np|
    ensures |IncidentIds(l, np, k)| <= |IncidentIds(l, np, m)|
    decreases m - k
  {
    if k < m {
      IncidentIdsGrow(l, np, k, m - 1);
    }
  }

  /** Every line of the plane has exactly q + 1 = 8 points in the table. */
  lemma LineHasEightPoints(l: Vec, np: seq<Vec>)
    requires PointTable(np) && InRange(l) && NonZero(l)
    ensures |IncidentIds(l, np, |np|)| == Q + 1
  {
    var ids := IncidentIds(l, np, |np|);
    var pts := seq(|ids|, t requires 0 <= t < |ids| => np[ids[t]]);
    assert Distinct(pts);
    LinePointsDistinct(l);
    forall v
      ensures v in pts <==> v in LinePoints(l)
    {
      LinePointsExact(l, v);
      if v in LinePoints(l) {
        var j :| 0 <= j < |np| && np[j] == v;
        var t :| 0 <= t < |ids| && ids[t] == j;
        assert pts[t] == v;
      }
    }
    SameElementsSameLength(pts, LinePoints(l));
  }

  /** Proportional line coefficients select the same ids. */
  lemma {:induction false} IncidentIdsNormalize(l: Vec, np: seq<Vec>, k: nat)
    requires k <= |np| && InRange(l) && NonZero(l)
    ensures IncidentIds(Normalize(l), np, k) == IncidentIds(l, np, k)
  {
    if k > 0 {
      IncidentIdsNormalize(l, np, k - 1);
      IncidentNormalizeLine(l, np[k - 1]);
    }
  }

  /** The card of a line only depends on the line, not on the coefficients chosen for it. */
  lemma LineSignatureNormalize(l: Vec, np: seq<Vec>)
    requires |np| <= |ALL_EMOJIS| && InRange(l) && NonZero(l)
    ensures LineSignature(Normalize(l), np) == LineSignature(l, np)
  {
    IncidentIdsNormalize(l, np, |np|);
  }

  /** Emoji lists over different ids differ, since the emojis are distinct. */
  lemma EmojisAtInjective(ids1: seq<int>, ids2: seq<int>)
    requires forall t :: 0 <= t < |ids1| ==> 0 <= ids1[t] < |ALL_EMOJIS|
    requires forall t :: 0 <= t < |ids2| ==> 0 <= ids2[t] < |ALL_EMOJIS|
    requires EmojisAt(ids1) == EmojisAt(ids2)
    ensures ids1 == ids2
  {
    AllEmojisDistinct();
    assert |ids1| == |EmojisAt(ids1)| == |ids2|;
    forall t | 0 <= t < |ids1|
      ensures ids1[t] == ids2[t]
    {
      assert EmojisAt(ids1)[t] == EmojisAt(ids2)[t];
    }
  }

  /** Two different lines of the plane give different cards. */
  lemma LineSignatureInjective(m1: Vec, m2: Vec, np: seq<Vec>)
    requires PointTable(np) && Canonical(m1) && Canonical(m2)
    requires LineSignature(m1, np) == LineSignature(m2, np)
    ensures m1 == m2
  {
    if m1 != m2 {
      var ids := IncidentIds(m1, np, |np|);
      EmojisAtInjective(ids, IncidentIds(m2, np, |np|));
      LineHasEightPoints(m1, np);
      var j1, j2 := ids[0], ids[1];
      NormalizeCanonical(m1);
      NormalizeCanonical(m2);
      MeetIsUnique(m1, m2, np[j1]);
      MeetIsUnique(m1, m2, np[j2]);
      assert false;
    }
  }

  /** The emojis of a line card are the emojis of the points on the line. */
  lemma EmojiSetOfLine(np: seq<Vec>, l: Vec, card: Card, e: string)
    requires |np| <= |ALL_EMOJIS| && CardOfLine(np, l, card)
    ensures e in EmojiSet(card) <==> exists j :: 0 <= j < |np| && Incident(l, np[j]) && e == ALL_EMOJIS[j]
  {
    var ids := IncidentIds(l, np, |np|);
    assert Signature(card) == EmojisAt(ids);
    if e in EmojiSet(card) {
      var t :| 0 <= t < |card| && Signature(card)[t] == e;
      assert e == ALL_EMOJIS[ids[t]];
    }
    if j :| 0 <= j < |np| && Incident(l, np[j]) && e == ALL_EMOJIS[j] {
      var t :| 0 <= t < |ids| && ids[t] == j;
      assert Signature(card)[t] == e;
    }
  }

  /** A line card shows eight different emojis. */
  lemma LineCardEmojis(np: seq<Vec>, l: Vec, card: Card)
    requires PointTable(np) && CardOfLine(np, l, card)
    ensures |card| == Q + 1 && Distinct(Signature(card)) && |EmojiSet(card)| == Q + 1
  {
    LineHasEightPoints(l, np);
    var ids := IncidentIds(l, np, |np|);
    assert Signature(card) == EmojisAt(ids);
    assert |card| == |Signature(card)|;
    AllEmojisDistinct();
    assert Distinct(EmojisAt(ids));
    DistinctCard(Signature(card));
  }

  /** Cards of two different lines have the emoji of their meeting point in common, and no other. */
  lemma CommonEmojiIsMeet(np: seq<Vec>, l1: Vec, l2: Vec, c1: Card, c2: Card) returns (j0: int)
    requires PointTable(np) && CardOfLine(np, l1, c1) && CardOfLine(np, l2, c2)
    requires Normalize(l1) != Normalize(l2)
    ensures 0 <= j0 < |np| && np[j0] == Meet(l1, l2)
    ensures EmojiSet(c1) * EmojiSet(c2) == {ALL_EMOJIS[j0]}
  {
    var m := Meet(l1, l2);
    MeetIncident(l1, l2);
    assert m in np;
    j0 :| 0 <= j0 < |np| && np[j0] == m;
    forall j | 0 <= j < |np| && Incident(l1, np[j]) && Incident(l2, np[j])
      ensures j == j0
    {
      MeetIsUnique(l1, l2, np[j]);
      DistinctIndex(np, j, j0);
    }
    SharedEmoji(np, l1, l2, c1, c2, j0);
  }

  /** Cards of two lines through exactly one common table point share exactly that point's emoji. */
  lemma SharedEmoji(np: seq<Vec>, l1: Vec, l2: Vec, c1: Card, c2: Card, j0: int)
    requires |np| <= |ALL_EMOJIS| && CardOfLine(np, l1, c1) && CardOfLine(np, l2, c2)
    requires 0 <= j0 < |np| && Incident(l1, np[j0]) && Incident(l2, np[j0])
    requires forall j :: 0 <= j < |np| && Incident(l1, np[j]) && Incident(l2, np[j]) ==> j == j0
    ensures EmojiSet(c1) * EmojiSet(c2) == {ALL_EMOJIS[j0]}
  {
    var common := EmojiSet(c1) * EmojiSet(c2);
    EmojiSetOfLine(np, l1, c1, ALL_EMOJIS[j0]);
    EmojiSetOfLine(np, l2, c2, ALL_EMOJIS[j0]);
    assert ALL_EMOJIS[j0] in common;
    forall e | e in common
      ensures e == ALL_EMOJIS[j0]
    {
      EmojiSetOfLine(np, l1, c1, e);
      EmojiSetOfLine(np, l2, c2, e);
      var j1 :| 0 <= j1 < |np| && Incident(l1, np[j1]) && e == ALL_EMOJIS[j1];
      var j2 :| 0 <= j2 < |np| && Incident(l2, np[j2]) && e == ALL_EMOJIS[j2];
      EmojiPositionUnique(j1, j2);
    }
  }

  lemma DifferentLinesShareOne(np: seq<Vec>, l1: Vec, l2: Vec, c1: Card, c2: Card)
    requires PointTable(np) && CardOfLine(np, l1, c1) && CardOfLine(np, l2, c2)
    requires Normalize(l1) != Normalize(l2)
    ensures |EmojiSet(c1) * EmojiSet(c2)| == 1 && Signature(c1) != Signature(c2)
  {
    var j0 := CommonEmojiIsMeet(np, l1, l2, c1, c2);
    LineCardEmojis(np, l1, c1);
    var common := EmojiSet(c1) * EmojiSet(c2);
    assert |common| == 1;
    assert common != EmojiSet(c1);
    assert EmojiSet(c2) != EmojiSet(c1);
  }

  /**
   * The Spot-It property: two cards of the deck have exactly one emoji in common
   * precisely when they are different cards (a card shares all eight with itself).
   */
  lemma CardsShareExactlyOne(np: seq<Vec>, c1: Card, c2: Card)
    requires PointTable(np) && IsLineCard(np, c1) && IsLineCard(np, c2)
    ensures Signature(c1) != Signature(c2) <==> |EmojiSet(c1) * EmojiSet(c2)| == 1
  {
    var l1 :| CardOfLine(np, l1, c1);
    var l2 :| CardOfLine(np, l2, c2);
    if Normalize(l1) == Normalize(l2) {
      SameLineSameSignature(np, l1, l2, c1, c2);
      LineCardEmojis(np, l1, c1);
      SameSignatureSharesAll(c1, c2);
    } else {
      DifferentLinesShareOne(np, l1, l2, c1, c2);
    }
  }

  /** Two cards with the same eight distinct emojis share all eight. */
  lemma SameSignatureSharesAll(c1: Card, c2: Card)
    requires Signature(c1) == Signature(c2) && |EmojiSet(c1)| == Q + 1
    ensures |EmojiSet(c1) * EmojiSet(c2)| == Q + 1
  {
    assert EmojiSet(c1) * EmojiSet(c2) == EmojiSet(c1);
  }

  /** Lines with the same normal form give their cards the same signature. */
  lemma SameLineSameSignature(np: seq<Vec>, l1: Vec, l2: Vec, c1: Card, c2: Card)
    requires |np| <= |ALL_EMOJIS| && CardOfLine(np, l1, c1) && CardOfLine(np, l2, c2)
    requires Normalize(l1) == Normalize(l2)
    ensures Signature(c1) == Signature(c2)
  {
    LineSignatureNormalize(l1, np);
    LineSignatureNormalize(l2, np);
  }

  /** Distinct signatures, one for every line, number exactly q^2 + q + 1 = 57. */
  lemma DeckSize(np: seq<Vec>, sigs: seq<seq<string>>)
    requires PointTable(np) && Distinct(sigs)
    requires forall g :: g in sigs <==> exists l :: InRange(l) && NonZero(l) && g == LineSignature(l, np)
    ensures |sigs| == Q * Q + Q + 1
  {
    var lines := CanonicalPoints();
    var byLine := seq(|lines|, i requires 0 <= i < |lines| => LineSignature(lines[i], np));
    CanonicalPointsDistinct();
    forall i, j | 0 <= i < j < |byLine|
      ensures byLine[i] != byLine[j]
    {
      CanonicalPointsExact(lines[i]);
      CanonicalPointsExact(lines[j]);
      if byLine[i] == byLine[j] {
        LineSignatureInjective(lines[i], lines[j], np);
      }
    }
    forall g
      ensures g in sigs <==> g in byLine
    {
      if g in sigs {
        var l :| InRange(l) && NonZero(l) && g == LineSignature(l, np);
        LineSignatureNormalize(l, np);
        CanonicalPointsExact(Normalize(l));
        var i :| 0 <= i < |lines| && lines[i] == Normalize(l);
        assert byLine[i] == g;
      }
      if g in byLine {
        var i :| 0 <= i < |byLine| && byLine[i] == g;
        CanonicalPointsExact(lines[i]);
      }
    }
    SameElementsSameLength(sigs, byLine);
  }

  // ---------------------------------------------------------------------------
  // generate_cards
  // ---------------------------------------------------------------------------

  /**
   * The body of the third loop of generate_cards for one line (a, b, c): shuffle
   * the slots, then walk the point table and place the emoji of every point on
   * the line. `count` is the counter i the source compares with 8.
   */
  method CardForLine(l: Vec, np: seq<Vec>, rnd: Random) returns (line: Card, count: int)
    requires |np| <= |ALL_EMOJIS| && InRange(l) && NonZero(l) && ValidRandom(rnd)
    requires |IncidentIds(l, np, |np|)| == Q + 1
    ensures count == |line| == Q + 1
    ensures WellFormedCard(line) && CardOfLine(np, l, line)
  {
    var indices := Shuffle(Slots, rnd.slotPicks(l));
    line, count := DealLine(l, np, rnd, indices);
  }

  /** The walk over the point table: the t-th incident point gets slot indices[t]. */
  method DealLine(l: Vec, np: seq<Vec>, rnd: Random, indices: seq<int>) returns (line: Card, count: int)
    requires |np| <= |ALL_EMOJIS| && InRange(l) && NonZero(l)
    requires |IncidentIds(l, np, |np|)| == |indices| == Q + 1
    requires forall t :: 20 <= rnd.size(l, t) <= 80 && 0 <= rnd.rotation(l, t) <= 360
    ensures count == |line| == Q + 1 && Indices(line) == indices
    ensures forall t :: 0 <= t < |line| ==> 20 <= line[t].size <= 80 && 0 <= line[t].rotation <= 360
    ensures CardOfLine(np, l, line)
  {
    line := [];
    count := 0;
    for k := 0 to |np|
      invariant Dealt(l, np, indices, k, line, count)
    {
      line, count := DealPoint(l, np, rnd, indices, k, line, count);
    }
    assert Indices(line) == indices;
  }

  /** The state of the walk after the first k points: the card holds their incident emojis. */
  predicate Dealt(l: Vec, np: seq<Vec>, indices: seq<int>, k: nat, line: Card, count: int)
    requires k <= |np| <= |ALL_EMOJIS|
  {
    count == |line| == |IncidentIds(l, np, k)| <= |indices| &&
    Signature(line) == EmojisAt(IncidentIds(l, np, k)) &&
    (forall t :: 0 <= t < |line| ==> line[t].index == indices[t]) &&
    (forall t :: 0 <= t < |line| ==> 20 <= line[t].size <= 80 && 0 <= line[t].rotation <= 360)
  }

  /** One step of the walk: the emoji of point k is placed when the point lies on the line. */
  method DealPoint(l: Vec, np: seq<Vec>, rnd: Random, indices: seq<int>, k: nat, line: Card, count: int)
    returns (line': Card, count': int)
    requires k < |np| <= |ALL_EMOJIS| && |IncidentIds(l, np, |np|)| == |indices|
    requires forall t :: 20 <= rnd.size(l, t) <= 80 && 0 <= rnd.rotation(l, t) <= 360
    requires Dealt(l, np, indices, k, line, count)
    ensures Dealt(l, np, indices, k + 1, line', count')
  {
    IncidentIdsGrow(l, np, k + 1, |np|);
    IncidentIdsStep(l, np, k);
    line', count' := line, count;
    if Incident(l, np[k]) {
      var e := Emoji(ALL_EMOJIS[k], rnd.size(l, count), rnd.rotation(l, count), indices[count]);
      PlaceEmoji(l, np, k, line, e);
      AppendDealt(line, e, indices);
      line', count' := line + [e], count + 1;
    }
  }

  /** One more point of the table adds its id exactly when it lies on the line. */
  lemma IncidentIdsStep(l: Vec, np: seq<Vec>, k: nat)
    requires k < |np|
    ensures IncidentIds(l, np, k + 1) == IncidentIds(l, np, k) + (if Incident(l, np[k]) then [k] else [])
  {
  }

  lemma AppendDealt(line: Card, e: Emoji, indices: seq<int>)
    requires |line| < |indices| && e.index == indices[|line|]
    requires forall t :: 0 <= t < |line| ==> line[t].index == indices[t]
    requires forall t :: 0 <= t < |line| ==> 20 <= line[t].size <= 80 && 0 <= line[t].rotation <= 360
    requires 20 <= e.size <= 80 && 0 <= e.rotation <= 360
    ensures forall t :: 0 <= t < |line| + 1 ==> (line + [e])[t].index == indices[t]
    ensures forall t :: 0 <= t < |line| + 1 ==> 20 <= (line + [e])[t].size <= 80 && 0 <= (line + [e])[t].rotation <= 360
  {
  }

  /** Placing the emoji of an incident point extends the card by the next id. */
  lemma PlaceEmoji(l: Vec, np: seq<Vec>, k: nat, line: Card, e: Emoji)
    requires k < |np| <= |ALL_EMOJIS| && Incident(l, np[k]) && e.emoji == ALL_EMOJIS[k]
    requires Signature(line) == EmojisAt(IncidentIds(l, np, k))
    ensures |IncidentIds(l, np, k + 1)| == |IncidentIds(l, np, k)| + 1
    ensures Signature(line + [e]) == EmojisAt(IncidentIds(l, np, k + 1))
  {
    IncidentIdsStep(l, np, k);
    assert Signature(line + [e]) == Signature(line) + [e.emoji];
  }

  /** The third loop of generate_cards: one card per non-zero triple (a, b, c). */
  method IncidenceLines(np: seq<Vec>, rnd: Random) returns (lines: seq<Card>)
    requires PointTable(np) && ValidRandom(rnd)
    ensures |lines| == Q * Q * Q - 1
    ensures forall t :: 0 <= t < |lines| ==> WellFormedCard(lines[t]) && IsLineCard(np, lines[t])
    ensures forall l :: InRange(l) && NonZero(l) ==> LineSignature(l, np) in Signatures(lines)
  {
    lines := [];
    for a := 0 to Q
      invariant LinesSoFar(np, lines, 49 * a)
    {
      for b := 0 to Q
        invariant LinesSoFar(np, lines, 49 * a + 7 * b)
      {
        for c := 0 to Q
          invariant LinesSoFar(np, lines, 49 * a + 7 * b + c)
        {
          if Vec(a, b, c) != Zero {
            lines := AddLineOf(np, rnd, lines, Vec(a, b, c));
          } else {
            FirstTriple(np, lines, 49 * a + 7 * b + c);
          }
        }
      }
    }
  }

  /** One step of the third loop: the card of (a, b, c) is appended when it has 8 emojis. */
  method AddLineOf(np: seq<Vec>, rnd: Random, lines: seq<Card>, l: Vec) returns (lines': seq<Card>)
    requires PointTable(np) && ValidRandom(rnd) && InRange(l) && NonZero(l) && LinesSoFar(np, lines, Code(l))
    ensures LinesSoFar(np, lines', Code(l) + 1)
  {
    LineHasEightPoints(l, np);
    var line, i := CardForLine(l, np, rnd);
    lines' := lines;
    if i == 8 {
      AddLine(np, lines, line, l);
      lines' := lines + [line];
    }
  }

  /** Only the zero triple has Code 0, so skipping it keeps the invariant. */
  lemma FirstTriple(np: seq<Vec>, lines: seq<Card>, n: int)
    requires PointTable(np) && n == 0 && LinesSoFar(np, lines, n)
    ensures LinesSoFar(np, lines, n + 1)
  {
    forall m | InRange(m) && NonZero(m) && Code(m) < 1
      ensures false
    {
      CodeInjective(m, Zero);
    }
  }

  /** The loop invariant of IncidenceLines after the triples with Code below n. */
  ghost predicate LinesSoFar(np: seq<Vec>, lines: seq<Card>, n: int)
    requires PointTable(np)
  {
    |lines| == (if n == 0 then 0 else n - 1) &&
    (forall t :: 0 <= t < |lines| ==> WellFormedCard(lines[t]) && IsLineCard(np, lines[t])) &&
    (forall l :: InRange(l) && NonZero(l) && Code(l) < n ==> LineSignature(l, np) in Signatures(lines))
  }

  lemma AddLine(np: seq<Vec>, lines: seq<Card>, line: Card, l: Vec)
    requires PointTable(np) && 1 <= Code(l) && LinesSoFar(np, lines, Code(l))
    requires InRange(l) && WellFormedCard(line) && CardOfLine(np, l, line)
    ensures LinesSoFar(np, lines + [line], Code(l) + 1)
  {
    var lines' := lines + [line];
    SignaturesAppend(lines, line);
    forall t | 0 <= t < |lines'|
      ensures WellFormedCard(lines'[t]) && IsLineCard(np, lines'[t])
    {
      if t < |lines| {
        assert lines'[t] == lines[t];
      } else {
        assert lines'[t] == line;
      }
    }
    forall m | InRange(m) && NonZero(m) && Code(m) < Code(l) + 1
      ensures LineSignature(m, np) in Signatures(lines')
    {
      if Code(m) == Code(l) {
        CodeInjective(m, l);
      }
    }
  }

  /** No card before position j carries the signature of lines[j]. */
  predicate FirstOfSignature(lines: seq<Card>, j: int)
    requires 0 <= j < |lines|
  {
    forall i :: 0 <= i < j ==> Signature(lines[i]) != Signature(lines[j])
  }

  /**
   * `kept` lists, in increasing order, exactly the positions below k that hold
   * the first card of their signature, and `unique` holds the cards at those positions.
   */
  predicate KeptFirsts(lines: seq<Card>, unique: seq<Card>, kept: seq<int>, k: int)
    requires 0 <= k <= |lines|
  {
    |kept| == |unique| &&
    (forall t :: 0 <= t < |kept| ==> 0 <= kept[t] < k && unique[t] == lines[kept[t]]) &&
    (forall s, t :: 0 <= s < t < |kept| ==> kept[s] < kept[t]) &&
    (forall j :: 0 <= j < k ==> (j in kept <==> FirstOfSignature(lines, j)))
  }

  /** `unique` is the first card of every signature of `lines`, in the order of `lines`. */
  ghost predicate FirstCardPerSignature(lines: seq<Card>, unique: seq<Card>) {
    exists kept :: KeptFirsts(lines, unique, kept, |lines|)
  }

  /** A signature was seen before position k exactly when lines[k] is not the first card with it. */
  lemma SeenBefore(lines: seq<Card>, k: int)
    requires 0 <= k < |lines|
    ensures Signature(lines[k]) in Elements(Signatures(lines[..k])) <==> !FirstOfSignature(lines, k)
  {
    if !FirstOfSignature(lines, k) {
      var i :| 0 <= i < k && Signature(lines[i]) == Signature(lines[k]);
      assert Signatures(lines[..k])[i] == Signature(lines[k]);
    }
  }

  /**
   * The dedup loop of generate_cards: keep the first card of every signature, in
   * input order, and drop the later ones.
   */
  method UniqueBySignature(lines: seq<Card>) returns (unique: seq<Card>)
    ensures FirstCardPerSignature(lines, unique)
    ensures forall c :: c in unique ==> c in lines
    ensures Distinct(Signatures(unique))
    ensures Elements(Signatures(unique)) == Elements(Signatures(lines))
  {
    var seen: set<seq<string>> := {};
    unique := [];
    ghost var kept: seq<int> := [];
    for k := 0 to |lines|
      invariant forall c :: c in unique ==> c in lines[..k]
      invariant seen == Elements(Signatures(unique)) == Elements(Signatures(lines[..k]))
      invariant Distinct(Signatures(unique))
      invariant KeptFirsts(lines, unique, kept, k)
    {
      var signature := Signature(lines[k]);
      assert Signatures(lines[..k + 1]) == Signatures(lines[..k]) + [signature];
      SeenBefore(lines, k);
      if signature !in seen {
        seen := seen + {signature};
        SignaturesAppend(unique, lines[k]);
        unique := unique + [lines[k]];
        kept := kept + [k];
      }
    }
    assert lines[..|lines|] == lines;
  }

  /**
   * generate_cards: the 57 cards of the Spot-It deck, one per line of PG(2,7).
   * `np` is the point table the emojis were assigned from.
   */
  method GenerateCards(rnd: Random) returns (cards: seq<Card>, ghost np: seq<Vec>)
    requires ValidRandom(rnd)
    ensures np == CanonicalPoints() && PointTable(np)
    ensures |cards| == Q * Q + Q + 1
    ensures forall c :: c in cards ==> WellFormedCard(c) && IsLineCard(np, c)
    ensures Distinct(Signatures(cards))
    ensures forall l :: InRange(l) && NonZero(l) ==> LineSignature(l, np) in Signatures(cards)
  {
    var points := AllPoints();
    var normPoints := NormalizedPoints(points);
    assert |normPoints| == Q * Q + Q + 1;
    np := normPoints;
    var lines := IncidenceLines(normPoints, rnd);
    cards := UniqueBySignature(lines);
    DeckOfLines(np, lines, cards);
  }

  /**
   * Keeping one card per signature of the cards of all lines leaves exactly one
   * card per line of the plane, Q * Q + Q + 1 of them.
   */
  lemma DeckOfLines(np: seq<Vec>, lines: seq<Card>, cards: seq<Card>)
    requires PointTable(np)
    requires forall t :: 0 <= t < |lines| ==> IsLineCard(np, lines[t])
    requires forall l :: InRange(l) && NonZero(l) ==> LineSignature(l, np) in Signatures(lines)
    requires Distinct(Signatures(cards)) && Elements(Signatures(cards)) == Elements(Signatures(lines))
    ensures |cards| == Q * Q + Q + 1
    ensures forall l :: InRange(l) && NonZero(l) ==> LineSignature(l, np) in Signatures(cards)
  {
    forall g
      ensures g in Signatures(cards) <==> exists l :: InRange(l) && NonZero(l) && g == LineSignature(l, np)
    {
      assert g in Elements(Signatures(cards)) <==> g in Elements(Signatures(lines));
      if g in Signatures(lines) {
        var t :| 0 <= t < |lines| && Signatures(lines)[t] == g;
        assert IsLineCard(np, lines[t]);
      }
    }
    DeckSize(np, Signatures(cards));
  }

  // ---------------------------------------------------------------------------
  // The piles of a game
  // ---------------------------------------------------------------------------

  /** The player piles cards_pile[0], ..., cards_pile[n - 1], one after the other. */
  function Flatten(piles: seq<seq<Card>>): seq<Card> {
    if |piles| == 0 then [] else Flatten(piles[..|piles| - 1]) + piles[|piles| - 1]
  }

  /** Every card held in the game: the player piles and the centre pile. */
  function AllCards(piles: seq<seq<Card>>, center: seq<Card>): multiset<Card> {
    multiset(Flatten(piles)) + multiset(center)
  }

  /** Putting one more card on pile p adds exactly that card to the piles. */
  lemma {:induction false} FlattenAppend(piles: seq<seq<Card>>, p: int, c: Card)
    requires 0 <= p < |piles|
    ensures multiset(Flatten(piles[p := piles[p] + [c]])) == multiset(Flatten(piles)) + multiset{c}
  {
    var piles' := piles[p := piles[p] + [c]];
    var n := |piles| - 1;
    assert piles'[..n] == if p == n then piles[..n] else piles[..n][p := piles[p] + [c]];
    if p < n {
      FlattenAppend(piles[..n], p, c);
    }
  }

  /** Pile i = [cards[i]] for every player i. */
  lemma {:induction false} FlattenSingletons(cards: seq<Card>, n: nat)
    requires n <= |cards|
    ensures Flatten(seq(n, i requires 0 <= i < n => [cards[i]])) == cards[..n]
  {
    if n > 0 {
      var piles := seq(n, i requires 0 <= i < n => [cards[i]]);
      assert piles[..n - 1] == seq(n - 1, i requires 0 <= i < n - 1 => [cards[i]]);
      FlattenSingletons(cards, n - 1);
      assert cards[..n] == cards[..n - 1] + [cards[n - 1]];
    }
  }

  /** A fresh deal keeps every card of the deck: the first n go to the players, the rest to the centre. */
  lemma DealKeepsDeck(cards: seq<Card>, n: nat)
    requires n <= |cards|
    ensures AllCards(seq(n, i requires 0 <= i < n => [cards[i]]), cards[n..]) == multiset(cards)
  {
    FlattenSingletons(cards, n);
    assert cards == cards[..n] + cards[n..];
  }

  /** The piles after update_cards(p): a non-empty centre gives its front card to pile p. */
  function Moved(piles: seq<seq<Card>>, center: seq<Card>, p: int): (r: (seq<seq<Card>>, seq<Card>))
    requires 0 <= p < |piles|
    ensures |r.0| == |piles| && forall q :: 0 <= q < |piles| && q != p ==> r.0[q] == piles[q]
    ensures |piles[p]| <= |r.0[p]| && r.0[p][..|piles[p]|] == piles[p] && |r.0[p]| + |r.1| == |piles[p]| + |center|
    ensures |r.1| <= |center| && r.1 == center[|center| - |r.1|..]
  {
    if |center| > 0 then (piles[p := piles[p] + [center[0]]], center[1..]) else (piles, center)
  }

  /**
   * update_cards on a non-empty centre: pile p gains the old centre front on top,
   * the centre loses it, and every other pile stays as it was; on an empty centre
   * nothing changes.
   */
  lemma MoveOntoPile(piles: seq<seq<Card>>, center: seq<Card>, p: int)
    requires 0 <= p < |piles|
    ensures |Moved(piles, center, p).0| == |piles|
    ensures |center| > 0 ==>
      Moved(piles, center, p).0[p] == piles[p] + [center[0]] &&
      Moved(piles, center, p).1 == center[1..]
    ensures forall q :: 0 <= q < |piles| && q != p ==> Moved(piles, center, p).0[q] == piles[q]
    ensures |center| == 0 ==> Moved(piles, center, p) == (piles, center)
  {
  }

  /** Moving the front card never creates or loses a card. */
  lemma MoveKeepsCards(piles: seq<seq<Card>>, center: seq<Card>, p: int)
    requires 0 <= p < |piles|
    ensures AllCards(Moved(piles, center, p).0, Moved(piles, center, p).1) == AllCards(piles, center)
  {
    if |center| > 0 {
      FlattenAppend(piles, p, center[0]);
      assert center == [center[0]] + center[1..];
    }
  }

  /** Shuffling keeps the signatures of the deck pairwise different. */
  lemma ShuffleKeepsSignaturesDistinct(deck: seq<Card>, shuffled: seq<Card>)
    requires Distinct(Signatures(deck)) && multiset(shuffled) == multiset(deck)
    ensures Distinct(Signatures(shuffled))
  {
    forall i, j | 0 <= i < j < |deck|
      ensures deck[i] != deck[j]
    {
      assert Signatures(deck)[i] != Signatures(deck)[j];
    }
    DistinctPermutation(deck, shuffled);
    forall i, j | 0 <= i < j < |shuffled|
      ensures Signatures(shuffled)[i] != Signatures(shuffled)[j]
    {
      assert shuffled[i] in multiset(deck) && shuffled[j] in multiset(deck);
      var p :| 0 <= p < |deck| && deck[p] == shuffled[i];
      var q :| 0 <= q < |deck| && deck[q] == shuffled[j];
      assert Signatures(deck)[p] == Signature(shuffled[i]);
      assert Signatures(deck)[q] == Signature(shuffled[j]);
    }
  }

  /**
   * In a deck of line cards with pairwise different signatures, the cards at two
   * positions share exactly one emoji precisely when the positions differ.
   */
  lemma DeckPositionsShareOne(np: seq<Vec>, cards: seq<Card>, i: int, j: int)
    requires PointTable(np) && (forall c :: c in cards ==> IsLineCard(np, c)) && Distinct(Signatures(cards))
    requires 0 <= i < |cards| && 0 <= j < |cards|
    ensures i != j <==> |EmojiSet(cards[i]) * EmojiSet(cards[j])| == 1
  {
    assert cards[i] in cards && cards[j] in cards;
    CardsShareExactlyOne(np, cards[i], cards[j]);
    assert Signatures(cards)[i] == Signature(cards[i]) && Signatures(cards)[j] == Signature(cards[j]);
  }

  /** The piles given to the constructor when a saved game is loaded. */
  datatype PileTable = PileTable(players: seq<seq<Card>>, center: seq<Card>)

  /** The deck size the players are limited by: a new game deals everyone a card. */
  const DECK_SIZE: int := Q * Q + Q + 1

  /**
   * SpotItGame: the deck, one pile per player, the centre pile (a deque whose
   * front is center[0]) and the scores. `points` is the point table of the deck.
   */
  class SpotItGame {
    var playerNames: seq<string>
    var nPlayers: int
    var cards: seq<Card>
    var piles: seq<seq<Card>>
    var center: seq<Card>
    var scores: seq<int>
    var lastClickedPlayerEmoji: Option<string>
    var lastClickedCenterEmoji: Option<string>
    ghost var points: seq<Vec>

    /** Every player has a pile with a card on top and a score. */
    predicate Valid()
      reads this
    {
      nPlayers == |piles| == |scores| && forall i :: 0 <= i < |piles| ==> |piles[i]| > 0
    }

    /** The piles hold exactly the cards of the deck. */
    predicate HoldsDeck()
      reads this
    {
      AllCards(piles, center) == multiset(cards)
    }

    /**
     * __init__: a saved state is loaded when all three of initial_cards,
     * initial_cards_pile and initial_scores are given; otherwise the deck is
     * generated, shuffled by `deckPicks`, and dealt.
     */
    constructor(names: seq<string>, initialCards: Option<seq<Card>>, initialPile: Option<PileTable>,
                initialScores: Option<seq<int>>, rnd: Random, deckPicks: seq<int>)
      requires Loaded(initialCards, initialPile, initialScores) ||
               (ValidRandom(rnd) && ValidPicks(deckPicks, DECK_SIZE) && |names| <= DECK_SIZE)
      ensures playerNames == names && nPlayers == |names|
      ensures lastClickedPlayerEmoji == None && lastClickedCenterEmoji == None
      ensures Loaded(initialCards, initialPile, initialScores) ==>
        cards == initialCards.value && piles == initialPile.value.players &&
        center == initialPile.value.center && scores == initialScores.value
      ensures !Loaded(initialCards, initialPile, initialScores) ==>
        Valid() && HoldsDeck() && |cards| == DECK_SIZE && points == CanonicalPoints() && PointTable(points) &&
        (forall c :: c in cards ==> WellFormedCard(c) && IsLineCard(points, c)) &&
        Distinct(Signatures(cards)) &&
        (forall i :: 0 <= i < |names| ==> piles[i] == [cards[i]]) &&
        center == cards[|names|..] && scores == seq(|names|, _ => 0)
    {
      playerNames := names;
      nPlayers := |names|;
      lastClickedPlayerEmoji := None;
      lastClickedCenterEmoji := None;
      if Loaded(initialCards, initialPile, initialScores) {
        cards := initialCards.value;
        piles := initialPile.value.players;
        center := initialPile.value.center;
        scores := initialScores.value;
        points := [];
      } else {
        var deck, np := GenerateCards(rnd);
        var shuffled := Shuffle(deck, deckPicks);
        var n := |names|;
        forall c | c in shuffled
          ensures c in deck
        {
          assert c in multiset(shuffled);
        }
        ShuffleKeepsSignaturesDistinct(deck, shuffled);
        DealKeepsDeck(shuffled, n);
        cards := shuffled;
        piles := seq(n, i requires 0 <= i < n => [shuffled[i]]);
        center := shuffled[n..];
        scores := seq(n, _ => 0);
        points := np;
      }
    }

    /** get_player_center_emojis: the top card of the player's pile and the front of the centre, if any. */
    function PlayerCenterEmojis(playerId: int): (r: (Card, Option<Card>))
      reads this
      requires 0 <= playerId < |piles| && |piles[playerId]| > 0
      ensures r.0 == piles[playerId][|piles[playerId]| - 1]
      ensures r.1 == None <==> |center| == 0
      ensures r.1 != None ==> r.1 == Some(center[0])
    {
      (piles[playerId][|piles[playerId]| - 1], if |center| > 0 then Some(center[0]) else None)
    }

    /**
     * update_cards: the front card of a non-empty centre moves onto the top of
     * the player's pile; the player's new top and the new centre front are returned.
     */
    method UpdateCards(playerId: int) returns (player: Card, centerCard: Option<Card>)
      requires 0 <= playerId < |piles| && (|piles[playerId]| > 0 || |center| > 0)
      modifies this
      ensures (piles, center) == Moved(old(piles), old(center), playerId)
      ensures (player, centerCard) == PlayerCenterEmojis(playerId)
      ensures playerNames == old(playerNames) && nPlayers == old(nPlayers) && cards == old(cards)
      ensures scores == old(scores) && points == old(points)
      ensures lastClickedPlayerEmoji == old(lastClickedPlayerEmoji)
      ensures lastClickedCenterEmoji == old(lastClickedCenterEmoji)
      ensures AllCards(piles, center) == old(AllCards(piles, center))
      ensures old(Valid()) ==> Valid()
      ensures old(HoldsDeck()) ==> HoldsDeck()
    {
      MoveKeepsCards(piles, center, playerId);
      MoveOntoPile(piles, center, playerId);
      var moved := Moved(piles, center, playerId);
      piles, center := moved.0, moved.1;
      player, centerCard := PlayerCenterEmojis(playerId).0, PlayerCenterEmojis(playerId).1;
    }
  }

  /** All three pieces of a saved state are present. */
  predicate Loaded(initialCards: Option<seq<Card>>, initialPile: Option<PileTable>, initialScores: Option<seq<int>>) {
    initialCards.Some? && initialPile.Some? && initialScores.Some?
  }

  /** Moving a card never changes how many cards the game holds. */
  lemma MoveKeepsCount(piles: seq<seq<Card>>, center: seq<Card>, p: int)
    requires 0 <= p < |piles|
    ensures |Flatten(Moved(piles, center, p).0)| + |Moved(piles, center, p).1| == |Flatten(piles)| + |center|
  {
    MoveKeepsCards(piles, center, p);
    var (piles', center') := Moved(piles, center, p);
    assert |AllCards(piles, center)| == |Flatten(piles)| + |center|;
    assert |AllCards(piles', center')| == |Flatten(piles')| + |center'|;
  }
}
