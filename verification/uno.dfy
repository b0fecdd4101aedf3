/** The card and deck data model of uno.py: the closed enumerations of suits
    and values, the validating `Card` constructor and the deterministic deck
    builder with its two views, the flat list `cards` and the per-suit map
    `cards_by_suit`. */
module Uno {
  import opened Results

  const SUITS: seq<string> := ["red", "green", "blue", "yellow", "wild"]

  const VALUES: seq<string> :=
    ["0", "1", "2", "3", "4", "5", "6", "7", "8", "9", "+2", "+4", "skip", "reverse", "color"]

  /** A card as the program stores it: its value and its suit, both strings. */
  datatype Card = Card(value: string, suit: string)

  /** The `ValueError` the constructor raises, with the offending argument. */
  datatype CardError = UnknownValue(value: string) | UnknownSuit(suit: string)

  predicate Valid(c: Card) {
    c.value in VALUES && c.suit in SUITS
  }

  /** `Card(value, suit)`: the value is checked first, then the suit. */
  function NewCard(value: string, suit: string): (r: Result<Card, CardError>)
    ensures r.Success? <==> value in VALUES && suit in SUITS
    ensures r.Success? ==> r.value.value == value && r.value.suit == suit && Valid(r.value)
    ensures value !in VALUES ==> r == Failure(UnknownValue(value))
    ensures value in VALUES && suit !in SUITS ==> r == Failure(UnknownSuit(suit))
  {
    if value !in VALUES then Failure(UnknownValue(value))
    else if suit !in SUITS then Failure(UnknownSuit(suit))
    else Success(Card(value, suit))
  }

  /** The constructor accepts exactly the valid cards and hands back the very
      card it was asked for. */
  lemma NewCardAcceptsExactlyValid(c: Card)
    ensures Valid(c) <==> NewCard(c.value, c.suit) == Success(c)
  {
  }

  /** The three cases of uno_test.py. */
  lemma ConstructorExamples()
    ensures NewCard("0", "red") == Success(Card("0", "red"))
    ensures NewCard("a", "red").Failure?
    ensures NewCard("0", "rede").Failure?
    ensures NewCard("a", "rede") == Failure(UnknownValue("a"))
  {
  }

  /** `str(i)` for a single decimal digit. */
  function DigitString(i: nat): (r: string)
    requires i < 10
    ensures r == VALUES[i] && r == LAYOUT[i]
    ensures |r| == 1 && r[0] as int == '0' as int + i
  {
    ["0123456789"[i]]
  }

  /** The values of a colour suit's bucket, in the order the builder appends
      them: the ten digits, then the triple +2, reverse, skip twice. */
  const LAYOUT: seq<string> :=
    ["0", "1", "2", "3", "4", "5", "6", "7", "8", "9", "+2", "reverse", "skip", "+2", "reverse", "skip"]

  /** The cards of one suit's bucket: one per entry of LAYOUT for a colour,
      none for the wild suit. */
  function Bucket(suit: string): seq<Card> {
    if suit == "wild" then [] else Tag(LAYOUT, suit)
  }

  /** One card of `suit` per value, in order. */
  function Tag(values: seq<string>, suit: string): (cs: seq<Card>)
    ensures |cs| == |values|
  {
    seq(|values|, k requires 0 <= k < |values| => Card(values[k], suit))
  }

  /** Tagging a longer run of values appends the cards of the extra values. */
  lemma TagExtend(values: seq<string>, lo: nat, hi: nat, n: nat, suit: string)
    requires lo <= hi && hi + n <= |values|
    ensures Tag(values[lo..hi + n], suit) == Tag(values[lo..hi], suit) + Tag(values[hi..hi + n], suit)
  {
    assert values[lo..hi + n] == values[lo..hi] + values[hi..hi + n];
  }

  lemma TagSnoc(values: seq<string>, i: nat, suit: string)
    requires i < |values|
    ensures Tag(values[0..i + 1], suit) == Tag(values[0..i], suit) + [Card(values[i], suit)]
  {
    assert values[0..i + 1] == values[0..i] + [values[i]];
  }

  /** The buckets of `suits` laid end to end. */
  function Flatten(suits: seq<string>): seq<Card> {
    if |suits| == 0 then [] else Flatten(suits[..|suits| - 1]) + Bucket(suits[|suits| - 1])
  }

  /** The per-suit map after processing `suits` in order: each suit's key is
      (re)set to its bucket. */
  function BySuit(suits: seq<string>): map<string, seq<Card>> {
    if |suits| == 0 then map[] else BySuit(suits[..|suits| - 1])[suits[|suits| - 1] := Bucket(suits[|suits| - 1])]
  }

  /** Extending the processed suits by one suit appends its bucket to the
      flat list and sets its key in the map. */
  lemma PrefixStep(suits: seq<string>, k: nat)
    requires k < |suits|
    ensures Flatten(suits[..k + 1]) == Flatten(suits[..k]) + Bucket(suits[k])
    ensures BySuit(suits[..k + 1]) == BySuit(suits[..k])[suits[k] := Bucket(suits[k])]
  {
    assert suits[..k + 1][..k] == suits[..k];
  }

  /** After processing `suits`, the map has exactly those suits as keys, each
      holding its bucket. */
  lemma {:induction false} BySuitLookup(suits: seq<string>, s: string)
    ensures s in BySuit(suits) <==> s in suits
    ensures s in suits ==> BySuit(suits)[s] == Bucket(s)
  {
    if |suits| > 0 {
      var init := suits[..|suits| - 1];
      assert suits == init + [suits[|suits| - 1]];
      BySuitLookup(init, s);
    }
  }

  /** A deck: the flat list and the per-suit map. */
  datatype Deck = Deck(cards: seq<Card>, cardsBySuit: map<string, seq<Card>>)

  /** The deck the builder is meant to produce. */
  function StandardDeck(): Deck {
    Deck(Flatten(SUITS), BySuit(SUITS))
  }

  /** The flat view read off the per-suit view: the buckets of `suits` in
      order. */
  function Concat(suits: seq<string>, bySuit: map<string, seq<Card>>): seq<Card>
    requires forall s :: s in suits ==> s in bySuit
  {
    if |suits| == 0 then [] else Concat(suits[..|suits| - 1], bySuit) + bySuit[suits[|suits| - 1]]
  }

  /** The two views of a deck agree: every suit has a bucket and the flat list
      is the buckets concatenated in suit order. */
  predicate Agrees(d: Deck) {
    && (forall s :: s in SUITS ==> s in d.cardsBySuit)
    && d.cards == Concat(SUITS, d.cardsBySuit)
  }

  /** `Deck._makedeck(suit)` on the lists built so far: appends the suit's
      cards to the flat list and to the suit's bucket, or raises the
      constructor's error for a suit that is not in SUITS before appending
      anything. */
  method MakeSuit(cards: seq<Card>, bySuit: map<string, seq<Card>>, suit: string)
    returns (r: Result<(seq<Card>, map<string, seq<Card>>), CardError>)
    requires suit in bySuit
    ensures r.Success? <==> suit in SUITS
    ensures r.Success? ==> r.value.0 == cards + Bucket(suit)
    ensures r.Success? ==> r.value.1 == bySuit[suit := bySuit[suit] + Bucket(suit)]
    ensures r.Failure? ==> r.error == UnknownSuit(suit)
  {
    if suit == "wild" {
      assert Bucket(suit) == [];
      assert cards + [] == cards && bySuit[suit] + [] == bySuit[suit];
      assert bySuit[suit := bySuit[suit]] == bySuit;
      return Success((cards, bySuit));
    }
    var digits :- AppendDigits(cards, bySuit[suit], suit);
    var cs, bucket := AppendActions(digits.0, digits.1, suit);
    BucketHalves(suit);
    assert cs == cards + (Tag(LAYOUT[0..10], suit) + Tag(LAYOUT[10..16], suit));
    assert bucket == bySuit[suit] + (Tag(LAYOUT[0..10], suit) + Tag(LAYOUT[10..16], suit));
    return Success((cs, bySuit[suit := bucket]));
  }

  lemma BucketHalves(suit: string)
    requires suit != "wild"
    ensures Tag(LAYOUT[0..10], suit) + Tag(LAYOUT[10..16], suit) == Bucket(suit)
  {
    TagExtend(LAYOUT, 0, 10, 6, suit);
    assert LAYOUT[0..16] == LAYOUT;
  }

  /** The first loop of `_makedeck`: one card per digit, appended to the flat
      list and to the bucket. The first card already raises for a bad suit. */
  method AppendDigits(cards: seq<Card>, bucket: seq<Card>, suit: string)
    returns (r: Result<(seq<Card>, seq<Card>), CardError>)
    ensures r.Success? <==> suit in SUITS
    ensures r.Success? ==> r.value == (cards + Tag(LAYOUT[0..10], suit), bucket + Tag(LAYOUT[0..10], suit))
    ensures r.Failure? ==> r.error == UnknownSuit(suit)
  {
    var cs, bs := cards, bucket;
    for i := 0 to 10
      invariant i > 0 ==> suit in SUITS
      invariant cs == cards + Tag(LAYOUT[0..i], suit)
      invariant bs == bucket + Tag(LAYOUT[0..i], suit)
    {
      var card :- NewCard(DigitString(i), suit);
      TagSnoc(LAYOUT, i, suit);
      cs := cs + [card];
      bs := bs + [card];
    }
    return Success((cs, bs));
  }

  /** The second loop of `_makedeck`: the triple +2, reverse, skip, twice. */
  method AppendActions(cards: seq<Card>, bucket: seq<Card>, suit: string)
    returns (cs: seq<Card>, bs: seq<Card>)
    requires suit in SUITS
    ensures cs == cards + Tag(LAYOUT[10..16], suit)
    ensures bs == bucket + Tag(LAYOUT[10..16], suit)
  {
    cs, bs := cards, bucket;
    for j := 0 to 2
      invariant cs == cards + Tag(LAYOUT[10..10 + 3 * j], suit)
      invariant bs == bucket + Tag(LAYOUT[10..10 + 3 * j], suit)
    {
      var plus2 := NewCard("+2", suit).value;
      var reverse := NewCard("reverse", suit).value;
      var skip := NewCard("skip", suit).value;
      TagExtend(LAYOUT, 10, 10 + 3 * j, 3, suit);
      LayoutTriple(j, suit);
      cs := cs + [plus2, reverse, skip];
      bs := bs + [plus2, reverse, skip];
    }
  }

  /** Positions 10 and 13 of LAYOUT each start the triple +2, reverse, skip. */
  lemma LayoutTriple(j: nat, suit: string)
    requires j < 2
    ensures Tag(LAYOUT[10 + 3 * j..13 + 3 * j], suit) == [Card("+2", suit), Card("reverse", suit), Card("skip", suit)]
  {
    var triple := LAYOUT[10 + 3 * j..13 + 3 * j];
    if j == 0 {
      assert triple == LAYOUT[10..13];
    } else {
      assert triple == LAYOUT[13..16];
    }
    assert triple == ["+2", "reverse", "skip"];
  }

  /** The loop of `Deck()` over a list of suits: each suit gets a fresh empty
      bucket, which `MakeSuit` then fills. It stops with the constructor's
      error at the first suit that is not in SUITS. */
  method FillDeck(suits: seq<string>) returns (r: Result<Deck, CardError>)
    ensures r.Success? <==> forall s :: s in suits ==> s in SUITS
    ensures r.Success? ==> r.value == Deck(Flatten(suits), BySuit(suits))
    ensures r.Failure? ==> r.error.UnknownSuit? && r.error.suit in suits && r.error.suit !in SUITS
  {
    var cards: seq<Card> := [];
    var bySuit: map<string, seq<Card>> := map[];
    for k := 0 to |suits|
      invariant forall s :: s in suits[..k] ==> s in SUITS
      invariant cards == Flatten(suits[..k])
      invariant bySuit == BySuit(suits[..k])
    {
      var suit := suits[k];
      PrefixStep(suits, k);
      var reset := bySuit[suit := []];
      var made := MakeSuit(cards, reset, suit);
      if made.Failure? {
        assert suit in suits;
        return Failure(made.error);
      }
      RefillBucket(bySuit, suit, made.value.1);
      assert suits[..k + 1] == suits[..k] + [suit];
      cards, bySuit := made.value.0, made.value.1;
    }
    assert suits[..|suits|] == suits;
    return Success(Deck(cards, bySuit));
  }

  /** Filling a freshly emptied entry with a bucket is setting the entry to
      that bucket. */
  lemma RefillBucket(m: map<string, seq<Card>>, suit: string, filled: map<string, seq<Card>>)
    requires filled == m[suit := []][suit := m[suit := []][suit] + Bucket(suit)]
    ensures filled == m[suit := Bucket(suit)]
  {
    assert m[suit := []][suit] + Bucket(suit) == Bucket(suit);
  }

  /** `Deck()`: never raises, and builds exactly the standard deck. */
  method NewDeck() returns (r: Result<Deck, CardError>)
    ensures r == Success(StandardDeck())
  {
    r := FillDeck(SUITS);
  }

  /** How many copies of a card with value `v` a colour suit holds: one per
      digit, two each of +2, reverse and skip, none of +4 or color. */
  function ColourQuota(v: string): nat {
    if |v| == 1 && '0' <= v[0] <= '9' then 1
    else if v == "+2" || v == "reverse" || v == "skip" then 2
    else 0
  }

  predicate IsColour(suit: string) {
    suit == "red" || suit == "green" || suit == "blue" || suit == "yellow"
  }

  lemma {:induction false} TagCount(values: seq<string>, suit: string, c: Card)
    ensures multiset(Tag(values, suit))[c] == if c.suit == suit then multiset(values)[c.value] else 0
  {
    if |values| > 0 {
      var init := values[..|values| - 1];
      var last := values[|values| - 1];
      assert values == init + [last];
      assert Tag(values, suit) == Tag(init, suit) + [Card(last, suit)];
      TagCount(init, suit, c);
    }
  }

  /** In a sequence without repetitions every element occurs once. */
  lemma {:induction false} CountDistinct<T>(xs: seq<T>, v: T)
    requires forall i, j :: 0 <= i < j < |xs| ==> xs[i] != xs[j]
    ensures multiset(xs)[v] == if v in xs then 1 else 0
  {
    if |xs| > 0 {
      var init := xs[..|xs| - 1];
      assert xs == init + [xs[|xs| - 1]];
      CountDistinct(init, v);
    }
  }

  lemma DigitsCount(v: string)
    ensures multiset(LAYOUT[..10])[v] == if |v| == 1 && '0' <= v[0] <= '9' then 1 else 0
  {
    var digits := LAYOUT[..10];
    assert forall i :: 0 <= i < 10 ==> digits[i] == DigitString(i);
    CountDistinct(digits, v);
    if |v| == 1 && '0' <= v[0] <= '9' {
      var k := v[0] as int - '0' as int;
      assert v == DigitString(k);
    }
  }

  lemma TripleCount(v: string)
    ensures multiset(LAYOUT[10..13])[v] == if v == "+2" || v == "reverse" || v == "skip" then 1 else 0
  {
    assert LAYOUT[10..13] == ["+2", "reverse", "skip"];
  }

  lemma LayoutCount(v: string)
    ensures multiset(LAYOUT)[v] == ColourQuota(v)
  {
    assert LAYOUT == LAYOUT[..10] + LAYOUT[10..13] + LAYOUT[10..13];
    DigitsCount(v);
    TripleCount(v);
  }

  /** Every card of a bucket carries the bucket's suit. */
  lemma BucketCount(suit: string, c: Card)
    ensures multiset(Bucket(suit))[c] == if c.suit == suit && suit != "wild" then ColourQuota(c.value) else 0
  {
    if suit != "wild" {
      TagCount(LAYOUT, suit, c);
      LayoutCount(c.value);
    }
  }

  lemma BucketMembers(suit: string, c: Card)
    requires c in Bucket(suit)
    ensures c.suit == suit && suit != "wild" && c.value in LAYOUT
  {
  }

  /** A card of the flat list lies in the bucket of its own suit, and that
      suit is one of the suits processed. */
  lemma {:induction false} FlattenMembers(suits: seq<string>, c: Card)
    requires c in Flatten(suits)
    ensures c.suit in suits && c in Bucket(c.suit)
  {
    var n := |suits|;
    if c in Bucket(suits[n - 1]) {
      BucketMembers(suits[n - 1], c);
    } else {
      FlattenMembers(suits[..n - 1], c);
    }
  }

  /** With distinct suits, a card occurs in the flat list as often as in the
      bucket of its suit. */
  lemma {:induction false} FlattenCount(suits: seq<string>, c: Card)
    requires forall i, j :: 0 <= i < j < |suits| ==> suits[i] != suits[j]
    ensures multiset(Flatten(suits))[c] == if c.suit in suits then multiset(Bucket(c.suit))[c] else 0
  {
    var n := |suits|;
    if n > 0 {
      var init := suits[..n - 1];
      var last := suits[n - 1];
      assert suits == init + [last];
      FlattenCount(init, c);
      BucketCount(last, c);
      if c.suit in init {
        var i :| 0 <= i < n - 1 && suits[i] == c.suit;
      }
    }
  }

  /** Reading the buckets of a map that holds each suit's bucket, in suit
      order, gives the flat list. */
  lemma {:induction false} ConcatOfBuckets(suits: seq<string>, m: map<string, seq<Card>>)
    requires forall s :: s in suits ==> s in m && m[s] == Bucket(s)
    ensures Concat(suits, m) == Flatten(suits)
  {
    if |suits| > 0 {
      ConcatOfBuckets(suits[..|suits| - 1], m);
    }
  }

  /** The two views of the built deck agree: `cards_by_suit` has exactly the
      suits as keys and `cards` is its buckets concatenated in suit order. */
  lemma DeckViewsAgree()
    ensures forall s :: s in StandardDeck().cardsBySuit <==> s in SUITS
    ensures Agrees(StandardDeck())
  {
    forall s ensures s in BySuit(SUITS) <==> s in SUITS {
      BySuitLookup(SUITS, s);
    }
    forall s | s in SUITS ensures BySuit(SUITS)[s] == Bucket(s) {
      BySuitLookup(SUITS, s);
    }
    ConcatOfBuckets(SUITS, BySuit(SUITS));
  }

  lemma {:induction false} FlattenLength(suits: seq<string>)
    requires "wild" !in suits
    ensures |Flatten(suits)| == 16 * |suits|
  {
    if |suits| > 0 {
      FlattenLength(suits[..|suits| - 1]);
    }
  }

  /** The deck holds 64 cards. */
  lemma DeckSize()
    ensures |StandardDeck().cards| == 64
  {
    var colours := SUITS[..4];
    assert colours == ["red", "green", "blue", "yellow"];
    assert SUITS[..|SUITS| - 1] == colours;
    FlattenLength(colours);
  }

  /** Each colour bucket holds 16 cards: the digits 0 to 9 in order, then the
      triple +2, reverse, skip, then the same triple again. The wild bucket
      is empty. */
  lemma BucketLayout(suit: string)
    requires suit in SUITS
    ensures suit in StandardDeck().cardsBySuit
    ensures suit == "wild" ==> StandardDeck().cardsBySuit[suit] == []
    ensures suit != "wild" ==>
      var b := StandardDeck().cardsBySuit[suit];
      && |b| == 16
      && (forall i :: 0 <= i < 10 ==> b[i] == Card(DigitString(i), suit))
      && b[10..13] == [Card("+2", suit), Card("reverse", suit), Card("skip", suit)]
      && b[13..16] == b[10..13]
  {
    BySuitLookup(SUITS, suit);
    if suit != "wild" {
      var b := StandardDeck().cardsBySuit[suit];
      assert b == Tag(LAYOUT, suit);
      assert b[10..13] == [b[10], b[11], b[12]];
      assert b[13..16] == [b[13], b[14], b[15]];
    }
  }

  /** No card of the deck belongs to the wild suit or has the value +4 or
      color: every card is a valid card of one of the four colours. */
  lemma NoWildCards(c: Card)
    requires c in StandardDeck().cards
    ensures IsColour(c.suit) && c.value != "+4" && c.value != "color"
    ensures Valid(c)
  {
    FlattenMembers(SUITS, c);
    BucketMembers(c.suit, c);
  }

  /** Every card in a bucket has that bucket's suit and passes the
      constructor's validation. */
  lemma BucketsHoldTheirSuit(suit: string, c: Card)
    requires suit in StandardDeck().cardsBySuit && c in StandardDeck().cardsBySuit[suit]
    ensures suit in SUITS && c.suit == suit && Valid(c)
  {
    BySuitLookup(SUITS, suit);
    BucketMembers(suit, c);
  }

  /** The deck's composition: each colour holds one card of each digit and two
      each of +2, reverse and skip; no other card occurs. */
  lemma DeckComposition(c: Card)
    ensures multiset(StandardDeck().cards)[c] == if IsColour(c.suit) then ColourQuota(c.value) else 0
  {
    SuitsDistinct();
    FlattenCount(SUITS, c);
    BucketCount(c.suit, c);
    ColourSuits(c.suit);
  }

  lemma SuitsDistinct()
    ensures forall i, j :: 0 <= i < j < |SUITS| ==> SUITS[i] != SUITS[j]
  {
  }

  /** The colours are the suits other than wild. */
  lemma ColourSuits(s: string)
    ensures IsColour(s) <==> s in SUITS && s != "wild"
  {
  }
}
