/**
  `String::from_utf8_lossy`, which the event stream reader applies to every chunk by itself, after
  table 3-7 of the Unicode Standard: well-formed sequences become characters, and each maximal part
  of anything else becomes one replacement character. The reference is the encoder.
 */
module Utf8 {
  import opened Octets

  const REPLACEMENT := '\U{FFFD}'

  // ----- decoding

  /** How many octets a sequence with this first octet has; none starts with the others. */
  function Announced(lead: Byte): nat {
    if lead < 0x80 then 1
    else if lead < 0xC2 then 0
    else if lead < 0xE0 then 2
    else if lead < 0xF0 then 3
    else if lead < 0xF5 then 4
    else 0
  }

  predicate Continues(b: Byte) {
    0x80 <= b < 0xC0
  }

  /** The second octet, which rules out overlong forms, surrogates and what lies above U+10FFFF. */
  predicate Second(lead: Byte, b: Byte) {
    Continues(b) && (lead == 0xE0 ==> b >= 0xA0) && (lead == 0xED ==> b < 0xA0) && (lead == 0xF0 ==> b >= 0x90) &&
    (lead == 0xF4 ==> b < 0x90)
  }

  /** How many octets make up the first item: a sequence, or the largest part of one that is there. */
  function Size(b: Bytes): (n: nat)
    requires b != []
    ensures 1 <= n <= 4 && n <= |b|
    ensures forall k :: 1 <= k < n ==> Continues(b[k])
  {
    var n := Announced(b[0]);
    if n < 2 || |b| < 2 || !Second(b[0], b[1]) then 1
    else if n < 3 || |b| < 3 || !Continues(b[2]) then 2
    else if n < 4 || |b| < 4 || !Continues(b[3]) then 3
    else 4
  }

  predicate Whole(b: Bytes)
    requires b != []
  {
    Size(b) == Announced(b[0])
  }

  /** One more octet that continues a sequence adds six bits. */
  function More(bits: nat, b: Byte): nat
    requires Continues(b)
  {
    bits * 64 + (b - 0x80)
  }

  function Scalar(b: Bytes): (v: nat)
    requires b != [] && Whole(b)
    ensures v < 0x11_0000 && !(0xD800 <= v < 0xE000)
  {
    match Size(b)
    case 1 => b[0]
    case 2 => More(b[0] - 0xC0, b[1])
    case 3 => More(More(b[0] - 0xE0, b[1]), b[2])
    case _ => More(More(More(b[0] - 0xF0, b[1]), b[2]), b[3])
  }

  function Character(b: Bytes): char
    requires b != [] && Whole(b)
  {
    Scalar(b) as char
  }

  function Item(b: Bytes): char
    requires b != []
  {
    if Whole(b) then Character(b) else REPLACEMENT
  }

  function Lossy(b: Bytes): string
    decreases |b|
  {
    if b == [] then "" else [Item(b)] + Lossy(b[Size(b)..])
  }

  /** Well-formed throughout. */
  predicate Valid(b: Bytes)
    decreases |b|
  {
    b == [] || (Whole(b) && Valid(b[Size(b)..]))
  }

  /** The first `i` octets are whole items of `b`. */
  predicate Boundary(b: Bytes, i: nat)
    decreases |b|
  {
    i == 0 || (b != [] && Size(b) <= i && Boundary(b[Size(b)..], i - Size(b)))
  }

  // ----- encoding

  function Units(c: char): (b: Bytes)
    ensures 1 <= |b| <= 4
  {
    var v := c as int;
    if v < 0x80 then [v]
    else if v < 0x800 then [0xC0 + v / 64, 0x80 + v % 64]
    else if v < 0x1_0000 then [0xE0 + v / 64 / 64, 0x80 + v / 64 % 64, 0x80 + v % 64]
    else [0xF0 + v / 64 / 64 / 64, 0x80 + v / 64 / 64 % 64, 0x80 + v / 64 % 64, 0x80 + v % 64]
  }

  function Encode(t: string): Bytes {
    if t == "" then [] else Units(t[0]) + Encode(t[1..])
  }

  lemma MoreAndBack(bits: nat, b: Byte)
    requires Continues(b)
    ensures More(bits, b) / 64 == bits && 0x80 + More(bits, b) % 64 == b
  {
  }

  /** The encoding of a character, whatever follows it, is one item: that character. */
  lemma UnitsAreOneItem(c: char, rest: Bytes)
    ensures var b := Units(c) + rest; Size(b) == |Units(c)| && Whole(b) && Item(b) == c && b[Size(b)..] == rest
  {
    var b, u, v := Units(c) + rest, Units(c), c as int;
    assert forall k :: 0 <= k < |u| ==> b[k] == u[k];
    assert b[|u|..] == rest;
    assert v == v / 64 * 64 + v % 64 && v / 64 == v / 64 / 64 * 64 + v / 64 % 64;
    assert v / 64 / 64 == v / 64 / 64 / 64 * 64 + v / 64 / 64 % 64;
  }

  /** A whole item is the encoding of its character. */
  lemma WholeItemIsUnits(b: Bytes)
    requires b != [] && Whole(b)
    ensures Units(Item(b)) == b[..Size(b)]
  {
    var n := Size(b);
    if n == 2 {
      MoreAndBack(b[0] - 0xC0, b[1]);
    } else if n == 3 {
      var high := More(b[0] - 0xE0, b[1]);
      MoreAndBack(b[0] - 0xE0, b[1]);
      MoreAndBack(high, b[2]);
      assert Units(Item(b))[0] == b[0] && Units(Item(b))[1] == b[1] && Units(Item(b))[2] == b[2];
    } else if n == 4 {
      var top := More(b[0] - 0xF0, b[1]);
      MoreAndBack(b[0] - 0xF0, b[1]);
      MoreAndBack(top, b[2]);
      MoreAndBack(More(top, b[2]), b[3]);
    }
  }

  /** Decoding undoes encoding, and the well-formed strings are the encodings. */
  lemma {:induction false} EncodedIsDecoded(t: string)
    ensures Valid(Encode(t)) && Lossy(Encode(t)) == t
  {
    if t != "" {
      hide Units, Size, Whole, Item;
      EncodedIsDecoded(t[1..]);
      UnitsAreOneItem(t[0], Encode(t[1..]));
    }
  }

  lemma LossyStep(b: Bytes)
    requires b != []
    ensures Lossy(b) == [Item(b)] + Lossy(b[Size(b)..])
  {
  }

  lemma EncodeStep(c: char, t: string)
    ensures Encode([c] + t) == Units(c) + Encode(t)
  {
    assert ([c] + t)[1..] == t;
  }

  lemma {:induction false} ValidIsEncoded(b: Bytes)
    requires Valid(b)
    ensures Encode(Lossy(b)) == b
    decreases |b|
  {
    if b != [] {
      WholeItemIsUnits(b);
      LossyStep(b);
      ValidIsEncoded(b[Size(b)..]);
      hide Units, Item, Whole, Size, Encode, Lossy;
      EncodeStep(Item(b), Lossy(b[Size(b)..]));
    }
  }

  lemma {:induction false} EncodeConcat(s: string, t: string)
    ensures Encode(s + t) == Encode(s) + Encode(t)
  {
    if s == "" {
      assert s + t == t;
    } else {
      hide Units;
      assert (s + t)[1..] == s[1..] + t;
      EncodeConcat(s[1..], t);
      assert Units(s[0]) + (Encode(s[1..]) + Encode(t)) == Units(s[0]) + Encode(s[1..]) + Encode(t);
    }
  }

  // ----- cutting

  /** A prefix that holds the first item starts with it; a shorter one is a single item that is not whole. */
  lemma ItemOfPrefix(b: Bytes, m: nat)
    requires 0 < m <= |b|
    ensures Size(b) <= m ==> Size(b[..m]) == Size(b) && Item(b[..m]) == Item(b) && (Whole(b[..m]) <==> Whole(b))
    ensures m < Size(b) ==> Size(b[..m]) == m && !Whole(b[..m])
  {
    var p := b[..m];
    assert forall k :: 0 <= k < m ==> p[k] == b[k];
  }

  lemma LoneOctet(b: Bytes)
    requires b != [] && Continues(b[0])
    ensures Lossy(b) == [REPLACEMENT] + Lossy(b[1..])
  {
    assert Size(b) == 1 && !Whole(b);
  }

  /** Cut off from its first octet, what is left of an item decodes octet by octet. */
  lemma {:induction false} LeftOverOctets(b: Bytes, i: nat)
    requires b != [] && 1 <= i <= Size(b)
    ensures Lossy(b[i..]) == Replacements(Size(b) - i) + Lossy(b[Size(b)..])
    decreases Size(b) - i
  {
    hide Lossy, Size;
    if i < Size(b) {
      LeftOverOctets(b, i + 1);
      LoneOctet(b[i..]);
      assert b[i..][1..] == b[i + 1..];
      Join([REPLACEMENT], Replacements(Size(b) - i - 1), Lossy(b[Size(b)..]));
    }
  }

  lemma Join<T>(a: seq<T>, b: seq<T>, c: seq<T>)
    ensures (a + b) + c == a + (b + c)
  {
  }

  function Replacements(n: nat): (s: string)
    ensures |s| == n
  {
    if n == 0 then "" else [REPLACEMENT] + Replacements(n - 1)
  }

  lemma CutBehindItem(b: Bytes, i: nat)
    requires b != [] && Size(b) <= i <= |b|
    ensures var n := Size(b);
            Lossy(b[..i]) == [Item(b)] + Lossy(b[n..][..i - n]) && b[i..] == b[n..][i - n..] &&
            Lossy(b) == [Item(b)] + Lossy(b[n..])
  {
    ItemOfPrefix(b, i);
    LossyStep(b);
    LossyStep(b[..i]);
    hide Size, Item, Whole, Lossy;
    Reslice(b, Size(b), i);
  }

  lemma Reslice(b: Bytes, n: nat, i: nat)
    requires n <= i <= |b|
    ensures b[..i][n..] == b[n..][..i - n] && b[i..] == b[n..][i - n..]
  {
  }

  lemma CutWithinItem(b: Bytes, i: nat)
    requires b != [] && 0 < i < Size(b)
    ensures |Lossy(b[..i])| == 1 && |Lossy(b[i..])| > |Lossy(b[Size(b)..])|
    ensures |Lossy(b)| == 1 + |Lossy(b[Size(b)..])|
  {
    ItemOfPrefix(b, i);
    LossyStep(b);
    LossyStep(b[..i]);
    LeftOverOctets(b, i);
    hide Size, Item, Whole;
    assert b[..i][i..] == [];
  }

  /**
    Decoding the two sides of a cut gives the decoding of the whole if the cut is between items,
    and more characters than that if it is within one.
   */
  lemma {:induction false} CutDecodes(b: Bytes, i: nat)
    requires i <= |b|
    ensures Boundary(b, i) ==> Lossy(b[..i]) + Lossy(b[i..]) == Lossy(b)
    ensures !Boundary(b, i) ==> |Lossy(b[..i])| + |Lossy(b[i..])| > |Lossy(b)|
    decreases |b|
  {
    if i == 0 {
      assert b[..0] == [] && b[0..] == b && "" + Lossy(b) == Lossy(b);
    } else {
      var n := Size(b);
      hide Size, Item, Whole, Lossy;
      if n <= i {
        CutDecodes(b[n..], i - n);
        CutBehindItem(b, i);
        Join([Item(b)], Lossy(b[n..][..i - n]), Lossy(b[i..]));
      } else {
        CutWithinItem(b, i);
      }
    }
  }

  /** For a cut of a well-formed string: between items means that what is before it is well-formed. */
  lemma {:induction false} BoundaryOfValid(b: Bytes, i: nat)
    requires Valid(b) && i <= |b|
    ensures Boundary(b, i) <==> Valid(b[..i])
    decreases |b|
  {
    if i > 0 {
      var n, p := Size(b), b[..i];
      ItemOfPrefix(b, i);
      hide Size, Item, Whole;
      if n <= i {
        BoundaryOfValid(b[n..], i - n);
        assert p[n..] == b[n..][..i - n];
      }
    } else {
      assert b[..0] == [];
    }
  }

  /** Some characters of the text take up exactly `i` octets. */
  ghost predicate BetweenCharacters(t: string, i: nat) {
    exists k :: 0 <= k <= |t| && |Encode(t[..k])| == i
  }

  lemma BetweenCharactersStep(t: string, i: nat)
    requires t != ""
    ensures BetweenCharacters(t, i) <==>
            i == 0 || (|Units(t[0])| <= i && BetweenCharacters(t[1..], i - |Units(t[0])|))
  {
    hide Units;
    var n, rest := |Units(t[0])|, t[1..];
    assert |Encode(t[..0])| == 0;
    forall k | 0 < k <= |t|
      ensures |Encode(t[..k])| == n + |Encode(rest[..k - 1])|
    {
      assert t[..k][0] == t[0] && t[..k][1..] == rest[..k - 1];
    }
    if n <= i && BetweenCharacters(rest, i - n) {
      var k :| 0 <= k <= |rest| && |Encode(rest[..k])| == i - n;
      assert |Encode(t[..k + 1])| == i;
    }
    if i > 0 && BetweenCharacters(t, i) {
      var k :| 0 <= k <= |t| && |Encode(t[..k])| == i;
      assert |Encode(rest[..k - 1])| == i - n;
    }
  }

  /** For a cut of an encoded text: between items means between characters. */
  lemma {:induction false} BoundaryOfText(t: string, i: nat)
    ensures Boundary(Encode(t), i) <==> BetweenCharacters(t, i)
    decreases |t|
  {
    if t == "" {
      assert t[..0] == "" && |Encode(t[..0])| == 0;
      assert forall k :: 0 <= k <= |t| ==> t[..k] == "";
    } else {
      BetweenCharactersStep(t, i);
      UnitsAreOneItem(t[0], Encode(t[1..]));
      hide Units, Size, Whole, Item, BetweenCharacters;
      if |Units(t[0])| <= i {
        BoundaryOfText(t[1..], i - |Units(t[0])|);
      }
    }
  }

  // ----- chunks

  function Concat(chunks: seq<Bytes>): Bytes {
    if chunks == [] then [] else Concat(chunks[..|chunks| - 1]) + chunks[|chunks| - 1]
  }

  /** Every chunk decoded by itself. */
  function LossyEach(chunks: seq<Bytes>): string {
    if chunks == [] then "" else LossyEach(chunks[..|chunks| - 1]) + Lossy(chunks[|chunks| - 1])
  }

  /** No item of the stream lies across the end of a chunk. */
  predicate CutBetweenItems(chunks: seq<Bytes>) {
    forall k :: 0 <= k <= |chunks| ==> Boundary(Concat(chunks), |Concat(chunks[..k])|)
  }

  lemma {:induction false} ConcatOfPrefix(chunks: seq<Bytes>, k: nat)
    requires k <= |chunks|
    ensures |Concat(chunks[..k])| <= |Concat(chunks)|
  {
    if k < |chunks| {
      var front := chunks[..|chunks| - 1];
      ConcatOfPrefix(front, k);
      assert front[..k] == chunks[..k];
    } else {
      assert chunks[..k] == chunks;
    }
  }

  /** The end is a boundary; before a cut, the boundaries are those of what the cut leaves. */
  lemma {:induction false} EndIsBoundary(b: Bytes)
    ensures Boundary(b, |b|)
    decreases |b|
  {
    if b != [] {
      EndIsBoundary(b[Size(b)..]);
    }
  }

  lemma {:induction false} BoundaryOfPrefix(b: Bytes, i: nat, m: nat)
    requires m < i <= |b|
    ensures Boundary(b[..i], m) <==> Boundary(b, m)
    decreases |b|
  {
    if m > 0 {
      var n, p := Size(b), b[..i];
      ItemOfPrefix(b, i);
      hide Size, Item, Whole;
      if n <= m {
        BoundaryOfPrefix(b[n..], i - n, m - n);
        assert p[n..] == b[n..][..i - n];
      }
    }
  }

  lemma CutOfFront(chunks: seq<Bytes>, k: nat)
    requires k < |chunks|
    ensures var front := chunks[..|chunks| - 1];
            var m, i := |Concat(chunks[..k])|, |Concat(front)|;
            m == |Concat(front[..k])| <= i &&
            if m == i then Boundary(Concat(front), m) else Boundary(Concat(front), m) <==> Boundary(Concat(chunks), m)
  {
    var front, whole := chunks[..|chunks| - 1], Concat(chunks);
    assert front[..k] == chunks[..k] && whole[..|Concat(front)|] == Concat(front);
    ConcatOfPrefix(front, k);
    EndIsBoundary(Concat(front));
    if |Concat(front[..k])| < |Concat(front)| {
      BoundaryOfPrefix(whole, |Concat(front)|, |Concat(front[..k])|);
    }
  }

  lemma CutsOfFront(chunks: seq<Bytes>)
    requires chunks != []
    ensures var front := chunks[..|chunks| - 1];
            CutBetweenItems(chunks) <==> CutBetweenItems(front) && Boundary(Concat(chunks), |Concat(front)|)
  {
    var n, whole := |chunks| - 1, Concat(chunks);
    var front := chunks[..n];
    assert chunks[..n + 1] == chunks;
    EndIsBoundary(whole);
    hide Boundary, Concat;
    forall k | 0 <= k <= n
      ensures var m := |Concat(chunks[..k])|;
              m == |Concat(front[..k])| && (Boundary(whole, m) ==> Boundary(Concat(front), m)) &&
              (Boundary(Concat(front), m) && Boundary(whole, |Concat(front)|) ==> Boundary(whole, m))
    {
      CutOfFront(chunks, k);
    }
    if CutBetweenItems(chunks) {
      assert Boundary(whole, |Concat(chunks[..n])|);
      forall k | 0 <= k <= n
        ensures Boundary(Concat(front), |Concat(front[..k])|)
      {
        assert Boundary(whole, |Concat(chunks[..k])|);
      }
    }
  }

  /**
    Decoding chunk by chunk gives the text of the stream exactly when no chunk ends within an item;
    otherwise it gives more characters.
   */
  lemma {:induction false} ChunksDecodeExactlyWhen(chunks: seq<Bytes>)
    ensures |LossyEach(chunks)| >= |Lossy(Concat(chunks))|
    ensures LossyEach(chunks) == Lossy(Concat(chunks)) <==> CutBetweenItems(chunks)
  {
    if chunks != [] {
      var front, last := chunks[..|chunks| - 1], chunks[|chunks| - 1];
      var whole, i := Concat(chunks), |Concat(front)|;
      ChunksDecodeExactlyWhen(front);
      assert whole[..i] == Concat(front) && whole[i..] == last;
      CutDecodes(whole, i);
      CutsOfFront(chunks);
      hide CutBetweenItems, Boundary, Lossy;
      if LossyEach(chunks) == Lossy(whole) && Boundary(whole, i) {
        SameTail(LossyEach(front), Lossy(Concat(front)), Lossy(last));
      }
    } else {
      assert chunks[..0] == [];
    }
  }

  lemma SameTail<T>(a: seq<T>, b: seq<T>, t: seq<T>)
    requires a + t == b + t
    ensures a == b
  {
    assert a == (a + t)[..|a|] && b == (b + t)[..|b|];
    assert |a + t| == |b + t|;
  }

  lemma CharacterInFront(c: char, b: Bytes)
    ensures Lossy(Units(c) + b) == [c] + Lossy(b)
  {
    UnitsAreOneItem(c, b);
    LossyStep(Units(c) + b);
  }

  lemma {:induction false} DecodedInFront(x: string, b: Bytes)
    ensures Lossy(Encode(x) + b) == x + Lossy(b)
  {
    if x == "" {
      assert Encode(x) + b == b;
    } else {
      var c, rest := x[0], x[1..];
      assert x == [c] + rest;
      EncodeStep(c, rest);
      hide Units, Lossy, Encode;
      DecodedInFront(rest, b);
      CharacterInFront(c, Encode(rest) + b);
      Join([c], rest, Lossy(b));
      Join(Units(c), Encode(rest), b);
    }
  }

  lemma FrontOfCharacter(c: char, j: nat)
    requires 0 < j < |Units(c)|
    ensures Lossy(Units(c)[..j]) == [REPLACEMENT]
  {
    var u := Units(c);
    UnitsAreOneItem(c, []);
    assert u + [] == u;
    ItemOfPrefix(u, j);
    hide Units, Size, Whole;
    assert u[..j][j..] == [];
  }

  lemma BackOfCharacter(c: char, y: string, j: nat)
    requires 0 < j < |Units(c)|
    ensures Lossy(Units(c)[j..] + Encode(y)) == Replacements(|Units(c)| - j) + y
  {
    var b := Units(c) + Encode(y);
    UnitsAreOneItem(c, Encode(y));
    hide Units, Size, Whole, Lossy, Item;
    EncodedIsDecoded(y);
    LeftOverOctets(b, j);
    assert b[j..] == Units(c)[j..] + Encode(y);
  }

  /** What a cut within a character makes of it: a replacement for its front and one for each octet behind. */
  lemma CutWithinCharacter(x: string, c: char, y: string, j: nat)
    requires 0 < j < |Units(c)|
    ensures LossyEach([Encode(x) + Units(c)[..j], Units(c)[j..] + Encode(y)]) ==
            x + Replacements(|Units(c)| - j + 1) + y
  {
    var n := |Units(c)| - j;
    DecodedInFront(x, Units(c)[..j]);
    FrontOfCharacter(c, j);
    BackOfCharacter(c, y, j);
    LossyOfTwo(Encode(x) + Units(c)[..j], Units(c)[j..] + Encode(y));
    hide Lossy, Encode, Units, LossyEach, Replacements;
    ReplacementsJoin(x, n, y);
  }

  lemma ReplacementsJoin(x: string, n: nat, y: string)
    ensures (x + [REPLACEMENT]) + (Replacements(n) + y) == x + Replacements(n + 1) + y
  {
    var r := [REPLACEMENT] + Replacements(n);
    assert (x + [REPLACEMENT]) + (Replacements(n) + y) == x + r + y;
  }

  lemma LossyOfTwo(a: Bytes, b: Bytes)
    ensures LossyEach([a, b]) == Lossy(a) + Lossy(b)
  {
    hide Lossy;
    assert [a, b][..1] == [a];
    assert LossyEach([a][..0]) == "";
    assert LossyEach([a]) == "" + Lossy(a) == Lossy(a);
  }
}
