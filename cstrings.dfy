/**
 * The two functors the reflection database uses for its name-to-id table
 * (src/rttr/detail/reflection_database_p.h, hash_char and comparison_char).
 * A `const char*` is modelled as the bytes of the buffer it points at, which
 * must contain a NUL; only the bytes before the first NUL are ever read.
 */
module CStrings {

  /** One `char` of a C string, as the byte it stores. */
  type Char = bv8

  const NUL: Char := 0

  /** A buffer a `const char*` may point at: a NUL occurs somewhere in it. */
  predicate IsCString(s: seq<Char>) {
    NUL in s
  }

  /** The characters the C string denotes: everything before the first NUL. */
  function Content(s: seq<Char>): (r: seq<Char>)
    requires IsCString(s)
    ensures |r| < |s| && s[..|r|] == r && s[|r|] == NUL
    ensures NUL !in r
  {
    if s[0] == NUL then [] else [s[0]] + Content(s[1..])
  }

  /** The buffer written for a NUL-free text: the text and its terminator. */
  function Terminated(text: seq<Char>): (s: seq<Char>)
    requires NUL !in text
    ensures IsCString(s) && Content(s) == text
  {
    ContentOfPrefix(text + [NUL], |text|);
    text + [NUL]
  }

  /** A NUL-free prefix followed by a NUL is exactly the content. */
  lemma ContentOfPrefix(s: seq<Char>, i: nat)
    requires i < |s| && s[i] == NUL && NUL !in s[..i]
    ensures IsCString(s) && Content(s) == s[..i]
  {
    var r := Content(s);
    assert forall j :: 0 <= j < i ==> s[..i][j] == s[j];
    assert forall j :: 0 <= j < |r| ==> r[j] == s[j];
  }

  /** Reading a C string never looks past its terminator. */
  lemma {:induction false} ContentIgnoresTail(s: seq<Char>, tail: seq<Char>)
    requires IsCString(s)
    ensures IsCString(s + tail) && Content(s + tail) == Content(s)
  {
    if s[0] != NUL {
      assert (s + tail)[1..] == s[1..] + tail;
      ContentIgnoresTail(s[1..], tail);
    }
  }

  // ---------------------------------------------------------------------
  // hash_char

  /** The start value of hash_char (0xcbf29ce4, not the published 64-bit FNV basis). */
  const HASH_SEED: bv64 := 0xcbf2_9ce4
  /** The multiplier of hash_char. */
  const MAGIC_PRIME: bv64 := 0x0100_0193

  /**
   * The value `*ptr` takes in `hash ^ *ptr` once converted to a 64-bit size_t:
   * where `char` is signed, a byte of 0x80 or more is negative and is
   * sign-extended; where it is unsigned, it is zero-extended.
   */
  function Promote(c: Char, signedChar: bool): (w: bv64)
    ensures w & 0xFF == c as bv64
    ensures w >> 8 == (if signedChar && c >= 0x80 then 0x00FF_FFFF_FFFF_FFFF else 0)
  {
    if signedChar && c >= 0x80 then 0xFFFF_FFFF_FFFF_FF00 | c as bv64 else c as bv64
  }

  /** One iteration of hash_char's loop; bv64 arithmetic wraps like size_t. */
  function Mix(hash: bv64, c: Char, signedChar: bool): bv64 {
    (hash ^ Promote(c, signedChar)) * MAGIC_PRIME
  }

  /** The hash of a NUL-free text, folding Mix over it from the left. */
  function HashOf(text: seq<Char>, signedChar: bool): bv64
  {
    if text == [] then HASH_SEED
    else Mix(HashOf(text[..|text| - 1], signedChar), text[|text| - 1], signedChar)
  }

  /**
   * hash_char::operator(): starts at the seed and mixes in every char before
   * the first NUL.
   */
  method HashChar(s: seq<Char>, signedChar: bool) returns (hash: bv64)
    requires IsCString(s)
    ensures hash == HashOf(Content(s), signedChar)
  {
    hash := HASH_SEED;
    var i := 0;
    while s[i] != NUL
      invariant i < |s| && NUL in s[i..]
      decreases |s| - i
      invariant NUL !in s[..i]
      invariant hash == HashOf(s[..i], signedChar)
    {
      assert s[..i + 1][..i] == s[..i];
      hash := Mix(hash, s[i], signedChar);
      i := i + 1;
      assert NUL in s[i..] by {
        var j :| i - 1 <= j < |s| && s[j] == NUL;
        assert s[i..][j - i] == NUL;
      }
    }
    ContentOfPrefix(s, i);
  }

  /** Worked values: "ab" and, where char is signed, the byte 0xE9. */
  lemma HashSamples()
    ensures HashOf([0x61, 0x62], false) == 0x1ea4_d235_1a23_5f07
    ensures HashOf([0x61, 0x62], true) == 0x1ea4_d235_1a23_5f07
    ensures HashOf([0xE9], true) == 0xff34_0c21_fe12_ed77
  {
    assert [0x61 as Char, 0x62][..1] == [0x61];
    assert [0x61 as Char][..0] == [];
    assert [0xE9 as Char][..0] == [];
  }

  // ---------------------------------------------------------------------
  // comparison_char

  /**
   * comparison_char::operator(): walks both strings while they agree and
   * the first has not ended, then compares the chars where it stopped.
   * Two C strings compare equal exactly when they denote the same text.
   */
  method ComparisonChar(a: seq<Char>, b: seq<Char>) returns (equal: bool)
    requires IsCString(a) && IsCString(b)
    ensures equal <==> Content(a) == Content(b)
  {
    var i := 0;
    while a[i] != NUL && a[i] == b[i]
      invariant i < |a| && i < |b|
      invariant a[..i] == b[..i]
      invariant NUL !in a[..i]
      decreases |a| - i
    {
      assert a[..i + 1] == a[..i] + [a[i]];
      assert b[..i + 1] == b[..i] + [b[i]];
      i := i + 1;
      assert NUL in a[i..] by { PrefixFreeMeansLater(a, i); }
      assert NUL in b[i..] by { PrefixFreeMeansLater(b, i); }
    }
    equal := a[i] == b[i];
    ContentAgreesUpTo(a, i);
    ContentAgreesUpTo(b, i);
  }

  /** A NUL that is not among the first i chars comes at i or later. */
  lemma PrefixFreeMeansLater(s: seq<Char>, i: nat)
    requires IsCString(s) && i <= |s| && NUL !in s[..i]
    ensures i < |s| && NUL in s[i..]
  {
    var j :| 0 <= j < |s| && s[j] == NUL;
    assert forall k :: 0 <= k < i ==> s[..i][k] == s[k];
    assert s[i..][j - i] == NUL;
  }

  /** What the content looks like around a position with no NUL before it. */
  lemma ContentAgreesUpTo(s: seq<Char>, i: nat)
    requires IsCString(s) && i < |s| && NUL !in s[..i]
    ensures |Content(s)| >= i && Content(s)[..i] == s[..i]
    ensures s[i] == NUL ==> Content(s) == s[..i]
    ensures s[i] != NUL ==> |Content(s)| > i && Content(s)[i] == s[i]
  {
    var r := Content(s);
    assert forall k :: 0 <= k < i ==> s[..i][k] == s[k];
    if s[i] == NUL {
      ContentOfPrefix(s, i);
    }
  }

  /**
   * comparison_char stops at the first NUL of either string: a buffer whose
   * text ends where another's continues with a non-NUL char compares
   * unequal to it, whatever the bytes after that point.
   */
  lemma ProperPrefixDiffers(t: seq<Char>, c: Char, x: seq<Char>, y: seq<Char>)
    requires NUL !in t && c != NUL && NUL in y
    ensures IsCString(t + [NUL] + x) && IsCString(t + [c] + y)
    ensures Content(t + [NUL] + x) == t
    ensures Content(t + [NUL] + x) != Content(t + [c] + y)
  {
    var a, b := t + [NUL] + x, t + [c] + y;
    assert a[..|t|] == t && b[..|t|] == t;
    assert b[|t|] == c;
    ContentOfPrefix(a, |t|);
    ContentAgreesUpTo(b, |t|);
  }
}
