/** The team avatar shared by components/AnalysisResult.tsx,
    components/MatchSelector.tsx and components/BookingCodeSection.tsx: the
    same `getTeamColor` string hash in all three, and the initials. */
module TeamBadge {
  import opened Text

  const TwoTo32: int := 0x1_0000_0000
  const TwoTo31: int := 0x8000_0000
  const ColourCount: nat := 8

  /** ECMAScript ToInt32: wrap to 32 bits, read as two's complement. */
  function ToInt32(x: int): (r: int)
    ensures -TwoTo31 <= r < TwoTo31
    ensures r % TwoTo32 == x % TwoTo32
  {
    var m := x % TwoTo32;
    if m >= TwoTo31 then m - TwoTo32 else m
  }

  /** The UTF-16 code units of one character (what `charCodeAt` reads). */
  function Units(c: char): (r: seq<int>)
    ensures 1 <= |r| <= 2
    ensures forall k :: 0 <= k < |r| ==> 0 <= r[k] < 0x1_0000
    ensures c as int < 0x1_0000 <==> r == [c as int]
  {
    var n := c as int;
    if n < 0x1_0000 then [n]
    else [0xD800 + (n - 0x1_0000) / 0x400, 0xDC00 + (n - 0x1_0000) % 0x400]
  }

  /** The UTF-16 encoding of a string: its `length` and `charCodeAt` values. */
  function Utf16(s: string): (r: seq<int>)
    ensures |r| >= |s|
    ensures forall k :: 0 <= k < |r| ==> 0 <= r[k] < 0x1_0000
  {
    if s == [] then [] else Utf16(s[..|s| - 1]) + Units(s[|s| - 1])
  }

  /** One iteration of the loop body: `hash = code + ((hash << 5) - hash)`.
      `<<` applies ToInt32 to its operand and to its result; the subtraction
      and the addition are exact (the values stay far below 2^53). */
  function HashStep(h: int, code: int): int {
    code + (ToInt32(ToInt32(h) * 32) - h)
  }

  /** The loop over all code units, starting from 0. */
  function Hash(units: seq<int>): int {
    if units == [] then 0 else HashStep(Hash(units[..|units| - 1]), units[|units| - 1])
  }

  function Abs(x: int): nat {
    if x < 0 then -x else x
  }

  /** `Math.abs(hash) % colors.length`: the slot of the gradient. */
  function ColourIndex(name: string): (i: nat)
    ensures i < ColourCount
    ensures name == "" ==> i == 0
  {
    Abs(Hash(Utf16(name))) % ColourCount
  }

  /** `getTeamColor` as the loop it is written as. */
  method TeamColourIndex(name: string) returns (idx: nat)
    ensures idx == ColourIndex(name)
    ensures idx < ColourCount
  {
    var units := Utf16(name);
    var hash := 0;
    var i := 0;
    while i < |units|
      invariant 0 <= i <= |units|
      invariant hash == Hash(units[..i])
    {
      assert units[..i + 1][..i] == units[..i];
      hash := units[i] + (ToInt32(ToInt32(hash) * 32) - hash);
      i := i + 1;
    }
    assert units[..|units|] == units;
    idx := Abs(hash) % ColourCount;
  }

  /** The classic `31 * h + c` string hash over 32-bit unsigned words. */
  function Hash31(units: seq<int>): (r: int)
    ensures 0 <= r < TwoTo32
  {
    if units == [] then 0 else (31 * Hash31(units[..|units| - 1]) + units[|units| - 1]) % TwoTo32
  }

  lemma ModAddMul(a: int, b: int, c: int, d: int)
    requires a % TwoTo32 == b % TwoTo32
    ensures (c * a + d) % TwoTo32 == (c * b + d) % TwoTo32
  {
    var k := a / TwoTo32 - b / TwoTo32;
    assert a == b + k * TwoTo32;
    assert c * a + d == (c * b + d) + (c * k) * TwoTo32;
  }

  lemma ModShift(x: int, y: int, t: int)
    requires x % TwoTo32 == y % TwoTo32
    ensures (x + t) % TwoTo32 == (y + t) % TwoTo32
  {
    ModAddMul(x, y, 1, t);
  }

  /** Up to the 32-bit wrap, `getTeamColor`'s hash is the classic `31 * h + c`
      hash: `(hash << 5) - hash` is `31 * hash` modulo 2^32. */
  lemma {:induction false} HashIs31Hash(units: seq<int>)
    ensures Hash(units) % TwoTo32 == Hash31(units)
  {
    if units != [] {
      var pre := units[..|units| - 1];
      var c := units[|units| - 1];
      var h := Hash(pre);
      HashIs31Hash(pre);
      var s := ToInt32(ToInt32(h) * 32);
      // s is 32 * h modulo 2^32
      ModAddMul(ToInt32(h), h, 32, 0);
      assert s % TwoTo32 == (32 * h) % TwoTo32;
      ModShift(s, 32 * h, c - h);
      assert Hash(units) == s + (c - h);
      assert (s + (c - h)) % TwoTo32 == (31 * h + c) % TwoTo32;
      ModAddMul(h, Hash31(pre), 31, c);
      assert (31 * Hash31(pre) + c) % TwoTo32 == Hash31(units);
    }
  }

  /** Characters below U+10000 are one code unit each. */
  lemma {:induction false} BmpUnits(s: string)
    requires forall k :: 0 <= k < |s| ==> s[k] as int < 0x1_0000
    ensures |Utf16(s)| == |s|
    ensures forall k :: 0 <= k < |s| ==> Utf16(s)[k] == s[k] as int
  {
    if s != [] {
      BmpUnits(s[..|s| - 1]);
    }
  }

  /** One space-free name: its hash is its first code, so "A" is slot 1. */
  lemma SingleLetter()
    ensures ColourIndex("A") == 1
  {
    assert Utf16("A") == [65] by {
      assert "A"[..0] == [];
    }
    assert Hash([65]) == 65 by {
      assert [65][..0] == [];
    }
  }

  // Initials

  /** `.map(n => n[0]).join('')`: an empty piece gives `undefined`, which
      `join` writes as nothing. */
  function Heads(pieces: seq<string>): (r: string)
    ensures |r| <= |pieces|
    ensures forall c :: c in r ==> exists k :: 0 <= k < |pieces| && pieces[k] != [] && pieces[k][0] == c
  {
    if pieces == [] then []
    else
      var rest := Heads(pieces[1..]);
      assert forall c :: c in rest ==> exists k :: 1 <= k < |pieces| && pieces[k] != [] && pieces[k][0] == c by {
        forall c | c in rest
          ensures exists k :: 1 <= k < |pieces| && pieces[k] != [] && pieces[k][0] == c
        {
          var k :| 0 <= k < |pieces[1..]| && pieces[1..][k] != [] && pieces[1..][k][0] == c;
          assert pieces[k + 1] == pieces[1..][k];
        }
      }
      (if pieces[0] == [] then [] else [pieces[0][0]]) + rest
  }

  /** The first characters of the space-separated words of s: a non-space
      character that starts s or follows a space. */
  function WordStarts(s: string, afterSpace: bool): (r: string)
    ensures ' ' !in r
    decreases |s|
  {
    if s == [] then []
    else (if s[0] != ' ' && afterSpace then [s[0]] else []) + WordStarts(s[1..], s[0] == ' ')
  }

  /** Inside a word nothing is collected until the next space. */
  lemma {:induction false} WordStartsInsideWord(s: string, i: nat)
    requires i <= |s| && ' ' !in s[..i]
    ensures WordStarts(s, false) == WordStarts(s[i..], false)
    decreases i
  {
    if i > 0 {
      assert s[0] in s[..i];
      assert s[1..][..i - 1] == s[..i][1..];
      WordStartsInsideWord(s[1..], i - 1);
      assert s[1..][i - 1..] == s[i..];
    }
  }

  /** Skipping the word in front of the first space. */
  lemma WordStartsFirstPiece(s: string, i: nat)
    requires i < |s| && s[i] == ' ' && ' ' !in s[..i]
    ensures WordStarts(s, true) == (if i == 0 then [] else [s[0]]) + WordStarts(s[i + 1..], true)
  {
    if i > 0 {
      assert s[0] in s[..i];
      assert s[1..][..i - 1] == s[..i][1..];
      WordStartsInsideWord(s[1..], i - 1);
      assert s[1..][i - 1..] == s[i..];
      assert s[i..][1..] == s[i + 1..];
    }
  }

  /** Splitting on spaces and taking each piece's head is collecting the
      starts of the words. */
  lemma {:induction false} HeadsOfSplitAreWordStarts(s: string)
    ensures Heads(Split(s, ' ')) == WordStarts(s, true)
    decreases |s|
  {
    match FirstIndexOf(s, ' ')
    case None =>
      if s != [] {
        WordStartsInsideWord(s[1..], |s| - 1);
        assert s[1..][|s| - 1..] == [];
        assert s[1..][..|s| - 1] == s[1..];
      }
    case Some(i) =>
      HeadsOfSplitAreWordStarts(s[i + 1..]);
      WordStartsFirstPiece(s, i);
      var pieces := Split(s, ' ');
      assert pieces[1..] == Split(s[i + 1..], ' ');
      assert pieces[0] == s[..i];
      if i > 0 {
        assert pieces[0][0] == s[0];
      }
  }

  function Take(s: string, n: nat): (r: string)
    ensures |r| == if |s| < n then |s| else n
    ensures r == s[..|r|]
  {
    if |s| <= n then s else s[..n]
  }

  /** `name.split(' ').map(n => n[0]).join('').slice(0, 2).toUpperCase()`. */
  function Initials(name: string): (r: string)
    ensures |r| <= 2
    ensures ' ' !in r
    ensures r == Upper(Take(WordStarts(name, true), 2))
  {
    HeadsOfSplitAreWordStarts(name);
    var h := Take(Heads(Split(name, ' ')), 2);
    assert forall k :: 0 <= k < |h| ==> h[k] in WordStarts(name, true);
    Upper(h)
  }

  /** A word without spaces contributes exactly its first character. */
  lemma WordStartsOfOneWord(w: string)
    requires w != [] && ' ' !in w
    ensures WordStarts(w, true) == [w[0]]
  {
    assert w[1..][..|w| - 1] == w[1..];
    WordStartsInsideWord(w[1..], |w| - 1);
    assert w[1..][|w| - 1..] == [];
  }

  /** Two words separated by one space give the two first letters, upper-cased. */
  lemma InitialsOfTwoWords(a: string, b: string)
    requires a != [] && b != [] && ' ' !in a && ' ' !in b
    ensures Initials(a + " " + b) == Upper([a[0], b[0]])
  {
    var s := a + " " + b;
    assert s[..|a|] == a && s[|a|] == ' ';
    WordStartsFirstPiece(s, |a|);
    assert s[|a| + 1..] == b;
    WordStartsOfOneWord(b);
  }
}
