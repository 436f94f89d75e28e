/** The pieces of Go's `strings` and `strconv` packages that the checker uses,
    over strings of Unicode characters.  Every separator the checker splits on
    ("\n", " ", ",", "/") is a single character, so `Split` takes a `char`. */
module Text {
  import opened Faults

  // ---------------------------------------------------------------------
  // Prefixes, membership
  // ---------------------------------------------------------------------

  /** `strings.HasPrefix(s, p)`. */
  predicate HasPrefix(s: string, p: string) {
    |p| <= |s| && s[..|p|] == p
  }

  /** `p` occurs in `s` starting at position `i`. */
  predicate OccursAt(s: string, p: string, i: int) {
    0 <= i <= |s| - |p| && s[i..i + |p|] == p
  }

  /** `p` occurs somewhere in `s` as a contiguous block. */
  ghost predicate Occurs(s: string, p: string) {
    exists i :: OccursAt(s, p, i)
  }

  // ---------------------------------------------------------------------
  // strings.Split with a one-character separator, and its inverse
  // ---------------------------------------------------------------------

  /** `strings.Split(s, [c])`: the pieces between occurrences of `c`.  As in
      Go, the empty string splits into one empty piece and two adjacent
      separators produce an empty piece between them. */
  function Split(s: string, c: char): (parts: seq<string>)
    ensures |parts| >= 1
    ensures forall k :: 0 <= k < |parts| ==> c !in parts[k]
  {
    if |s| == 0 then [""]
    else
      var rest := Split(s[1..], c);
      if s[0] == c then [""] + rest
      else [[s[0]] + rest[0]] + rest[1..]
  }

  /** `strings.Join(parts, [c])`. */
  function Join(parts: seq<string>, c: char): string
    requires |parts| >= 1
  {
    if |parts| == 1 then parts[0] else parts[0] + [c] + Join(parts[1..], c)
  }

  /** Every piece is made of characters of the text. */
  lemma {:induction false} SplitWithin(s: string, c: char, k: nat, ch: char)
    requires k < |Split(s, c)| && ch in Split(s, c)[k]
    ensures ch in s
  {
    if |s| > 0 {
      var rest := Split(s[1..], c);
      if s[0] == c {
        SplitWithin(s[1..], c, k - 1, ch);
      } else if k == 0 {
        if ch != s[0] { SplitWithin(s[1..], c, 0, ch); }
      } else {
        SplitWithin(s[1..], c, k, ch);
      }
    }
  }

  /** Joining the pieces back with the separator gives the original text. */
  lemma {:induction false} JoinSplit(s: string, c: char)
    ensures Join(Split(s, c), c) == s
  {
    if |s| > 0 {
      JoinSplit(s[1..], c);
      var rest := Split(s[1..], c);
      if s[0] != c {
        if |rest| == 1 {
          assert Join(Split(s, c), c) == [s[0]] + rest[0];
        } else {
          assert Join(Split(s, c), c) == [s[0]] + rest[0] + [c] + Join(rest[1..], c);
        }
      }
    }
  }

  /** A text without the separator is a single piece. */
  lemma {:induction false} SplitNoSeparator(s: string, c: char)
    requires c !in s
    ensures Split(s, c) == [s]
  {
    if |s| > 0 {
      SplitNoSeparator(s[1..], c);
      assert [s[0]] + s[1..] == s;
    }
  }

  /** Splitting `p + [c] + t`, where `p` holds no separator, yields `p` first. */
  lemma {:induction false} SplitAfterPiece(p: string, c: char, t: string)
    requires c !in p
    ensures Split(p + [c] + t, c) == [p] + Split(t, c)
  {
    if |p| == 0 {
      assert p + [c] + t == [c] + t;
      assert ([c] + t)[1..] == t;
    } else {
      SplitAfterPiece(p[1..], c, t);
      assert (p + [c] + t)[1..] == p[1..] + [c] + t;
      assert [p[0]] + p[1..] == p;
    }
  }

  /** Splitting joined pieces that hold no separator gives the pieces back. */
  lemma {:induction false} SplitJoin(parts: seq<string>, c: char)
    requires |parts| >= 1
    requires forall k :: 0 <= k < |parts| ==> c !in parts[k]
    ensures Split(Join(parts, c), c) == parts
  {
    if |parts| == 1 {
      SplitNoSeparator(parts[0], c);
    } else {
      SplitJoin(parts[1..], c);
      SplitAfterPiece(parts[0], c, Join(parts[1..], c));
      assert [parts[0]] + parts[1..] == parts;
    }
  }

  // ---------------------------------------------------------------------
  // strings.TrimSpace
  // ---------------------------------------------------------------------

  /** `unicode.IsSpace`: tab, line feed, vertical tab, form feed, carriage
      return, space, U+0085, U+00A0, U+1680, U+2000 to U+200A, U+2028,
      U+2029, U+202F, U+205F and U+3000. */
  predicate IsSpace(ch: char) {
    var c := ch as int;
    if c <= 0xFF then 9 <= c <= 13 || c == 32 || c == 0x85 || c == 0xA0
    else c == 0x1680 || (0x2000 <= c <= 0x200A) || c == 0x2028 || c == 0x2029
         || c == 0x202F || c == 0x205F || c == 0x3000
  }

  /** Every character of `s` from `lo` up to `hi` is white space. */
  predicate SpaceBetween(s: string, lo: int, hi: int)
    requires 0 <= lo <= hi <= |s|
  {
    forall k :: lo <= k < hi ==> IsSpace(s[k])
  }


  /** The text is empty or starts and ends with a non-space. */
  predicate Trimmed(s: string) {
    |s| == 0 || (!IsSpace(s[0]) && !IsSpace(s[|s| - 1]))
  }

  /** `s` without its leading white space. */
  function TrimLeft(s: string): string {
    if |s| > 0 && IsSpace(s[0]) then TrimLeft(s[1..]) else s
  }

  /** `s` without its trailing white space. */
  function TrimRight(s: string): string {
    if |s| > 0 && IsSpace(s[|s| - 1]) then TrimRight(s[..|s| - 1]) else s
  }

  /** Trimming the left end leaves a suffix that does not start with white
      space. */
  lemma {:induction false} TrimLeftShape(s: string)
    ensures |TrimLeft(s)| <= |s| && TrimLeft(s) == s[|s| - |TrimLeft(s)|..]
    ensures |TrimLeft(s)| == 0 || !IsSpace(TrimLeft(s)[0])
  {
    if |s| > 0 && IsSpace(s[0]) {
      TrimLeftShape(s[1..]);
    }
  }

  /** Trimming the right end leaves a prefix that does not end with white
      space. */
  lemma {:induction false} TrimRightShape(s: string)
    ensures |TrimRight(s)| <= |s| && TrimRight(s) == s[..|TrimRight(s)|]
    ensures |TrimRight(s)| == 0 || !IsSpace(TrimRight(s)[|TrimRight(s)| - 1])
  {
    if |s| > 0 && IsSpace(s[|s| - 1]) {
      TrimRightShape(s[..|s| - 1]);
    }
  }

  /** What `TrimLeft` drops is white space. */
  lemma {:induction false} TrimLeftDropsSpace(s: string)
    ensures |TrimLeft(s)| <= |s| && SpaceBetween(s, 0, |s| - |TrimLeft(s)|)
  {
    if |s| > 0 && IsSpace(s[0]) {
      TrimLeftDropsSpace(s[1..]);
    }
  }

  /** What `TrimRight` drops is white space. */
  lemma {:induction false} TrimRightDropsSpace(s: string)
    ensures |TrimRight(s)| <= |s| && SpaceBetween(s, |TrimRight(s)|, |s|)
  {
    if |s| > 0 && IsSpace(s[|s| - 1]) {
      TrimRightDropsSpace(s[..|s| - 1]);
    }
  }

  /** `strings.TrimSpace(s)`: leading and trailing white space removed.
      Its properties are the lemmas below; the function carries no
      postcondition so that the many records built from it stay cheap to
      reason about. */
  function TrimSpace(s: string): string {
    if |s| > 0 && IsSpace(s[0]) then TrimSpace(s[1..]) else TrimRight(s)
  }

  /** Trimming is trimming the left end, then the right end; the result is
      no longer than the text and is trimmed. */
  lemma {:induction false} TrimSpaceShape(s: string)
    ensures TrimSpace(s) == TrimRight(TrimLeft(s))
    ensures |TrimSpace(s)| <= |s| && Trimmed(TrimSpace(s))
  {
    if |s| > 0 && IsSpace(s[0]) {
      TrimSpaceShape(s[1..]);
    } else {
      var r := TrimRight(s);
      TrimRightShape(s);
      assert |r| > 0 ==> r[0] == s[0];
    }
  }

  /** White space in a suffix of `s` is white space in `s`. */
  lemma SpaceBetweenShift(s: string, i: nat, lo: nat, hi: nat)
    requires i <= |s| && lo <= hi <= |s| - i
    requires SpaceBetween(s[i..], lo, hi)
    ensures SpaceBetween(s, lo + i, hi + i)
  {
    forall k | lo + i <= k < hi + i ensures IsSpace(s[k]) {
      assert s[k] == s[i..][k - i];
    }
  }

  /** `TrimSpace(s)` is the block of `s` that is surrounded only by white
      space and neither starts nor ends with white space. */
  lemma TrimSpaceSpec(s: string) returns (i: nat)
    ensures i + |TrimSpace(s)| <= |s| && TrimSpace(s) == s[i..i + |TrimSpace(s)|]
    ensures SpaceBetween(s, 0, i) && SpaceBetween(s, i + |TrimSpace(s)|, |s|)
  {
    var l := TrimLeft(s);
    TrimLeftShape(s);
    i := |s| - |l|;
    assert l == s[i..];
    TrimSpaceShape(s);
    assert TrimSpace(s) == TrimRight(s[i..]);
    TrimLeftDropsSpace(s);
    TrimRightOfSuffix(s, i);
  }

  /** Trimming the right end of a suffix of `s` leaves a block of `s`
      followed only by white space. */
  lemma TrimRightOfSuffix(s: string, i: nat)
    requires i <= |s|
    ensures i + |TrimRight(s[i..])| <= |s|
    ensures TrimRight(s[i..]) == s[i..i + |TrimRight(s[i..])|]
    ensures SpaceBetween(s, i + |TrimRight(s[i..])|, |s|)
  {
    var l := s[i..];
    var r := TrimRight(l);
    TrimRightShape(l);
    assert r == l[..|r|];
    TrimRightDropsSpace(l);
    SpaceBetweenShift(s, i, |r|, |l|);
  }

  /** Trimming keeps only characters of the original. */
  lemma TrimSpaceWithin(s: string, ch: char)
    requires ch in TrimSpace(s)
    ensures ch in s
  {
    TrimSpaceShape(s);
    var l := TrimLeft(s);
    var r := TrimRight(l);
    TrimLeftShape(s);
    TrimRightShape(l);
    var k :| 0 <= k < |r| && r[k] == ch;
    assert l[k] == ch;
    assert s[|s| - |l| + k] == ch;
  }

  /** A text that is already trimmed is left alone. */
  lemma TrimSpaceOfTrimmed(s: string)
    requires Trimmed(s)
    ensures TrimSpace(s) == s
  {
    TrimSpaceShape(s);
  }

  // ---------------------------------------------------------------------
  // strings.Replace(s, pat, "", -1)
  // ---------------------------------------------------------------------

  /** `strings.Replace(s, pat, "", -1)`: scanning left to right, every
      occurrence of `pat` that does not overlap an earlier removed one is
      dropped. */
  function RemoveAll(s: string, pat: string): string
    requires |pat| > 0
    decreases |s|
  {
    if |s| == 0 then ""
    else if HasPrefix(s, pat) then RemoveAll(s[|pat|..], pat)
    else [s[0]] + RemoveAll(s[1..], pat)
  }

  /** Removal never lengthens the text and adds no character. */
  lemma {:induction false} RemoveAllShrinks(s: string, pat: string)
    requires |pat| > 0
    ensures |RemoveAll(s, pat)| <= |s|
    ensures forall ch :: ch in RemoveAll(s, pat) ==> ch in s
    decreases |s|
  {
    if |s| > 0 {
      if HasPrefix(s, pat) {
        RemoveAllShrinks(s[|pat|..], pat);
        forall ch | ch in RemoveAll(s, pat) ensures ch in s {
          var k :| 0 <= k < |RemoveAll(s[|pat|..], pat)| && RemoveAll(s[|pat|..], pat)[k] == ch;
          assert ch in s[|pat|..];
        }
      } else {
        RemoveAllShrinks(s[1..], pat);
        forall ch | ch in RemoveAll(s, pat) ensures ch in s {
          if ch != s[0] {
            assert ch in RemoveAll(s[1..], pat);
            assert ch in s[1..];
          }
        }
      }
    }
  }

  /** Nothing is removed from a text in which the pattern does not occur. */
  lemma {:induction false} RemoveAllAbsent(s: string, pat: string)
    requires |pat| > 0 && !Occurs(s, pat)
    ensures RemoveAll(s, pat) == s
    decreases |s|
  {
    if |s| > 0 {
      assert !OccursAt(s, pat, 0);
      assert !Occurs(s[1..], pat) by {
        forall i | 0 <= i <= |s| - 1 - |pat| ensures !OccursAt(s[1..], pat, i) {
          assert s[1..][i..i + |pat|] == s[i + 1..i + 1 + |pat|];
          assert !OccursAt(s, pat, i + 1);
        }
      }
      RemoveAllAbsent(s[1..], pat);
      assert [s[0]] + s[1..] == s;
    }
  }

  /** Removal starts at the leftmost occurrence: the text before it is kept,
      the occurrence is dropped and scanning resumes after it, so occurrences
      never overlap. */
  lemma {:induction false} RemoveAllLeftmost(s: string, pat: string, i: nat)
    requires |pat| > 0 && OccursAt(s, pat, i)
    requires forall j :: 0 <= j < i ==> !OccursAt(s, pat, j)
    ensures RemoveAll(s, pat) == s[..i] + RemoveAll(s[i + |pat|..], pat)
    decreases i
  {
    if i > 0 {
      var t := s[1..];
      RemoveAllKeepsFirst(s, pat);
      NoEarlierShift(s, pat, i);
      RemoveAllLeftmost(t, pat, i - 1);
      PrependSlice(s, i, |pat|, RemoveAll(s[i + |pat|..], pat));
    }
  }

  lemma PrependSlice(s: string, i: nat, m: nat, rest: string)
    requires 0 < i && i + m <= |s|
    ensures s[1..][i - 1 + m..] == s[i + m..]
    ensures [s[0]] + (s[1..][..i - 1] + rest) == s[..i] + rest
  {
    assert [s[0]] + s[1..][..i - 1] == s[..i];
  }

  /** A text that does not start with the pattern keeps its first character. */
  lemma RemoveAllKeepsFirst(s: string, pat: string)
    requires |pat| > 0 && |s| > 0 && !OccursAt(s, pat, 0)
    ensures RemoveAll(s, pat) == [s[0]] + RemoveAll(s[1..], pat)
  {
    if |pat| <= |s| {
      assert s[..|pat|] == s[0..0 + |pat|];
    }
  }

  /** The leftmost occurrence moves one place left when the first character
      is dropped. */
  lemma NoEarlierShift(s: string, pat: string, i: nat)
    requires 0 < i && OccursAt(s, pat, i)
    requires forall j :: 0 <= j < i ==> !OccursAt(s, pat, j)
    ensures OccursAt(s[1..], pat, i - 1)
    ensures forall j :: 0 <= j < i - 1 ==> !OccursAt(s[1..], pat, j)
  {
    OccursAtShift(s, pat, i - 1);
    forall j | 0 <= j < i - 1 ensures !OccursAt(s[1..], pat, j) {
      OccursAtShift(s, pat, j);
    }
  }

  /** Dropping the first character moves every occurrence one place left. */
  lemma OccursAtShift(s: string, pat: string, j: nat)
    requires |s| > 0
    ensures OccursAt(s[1..], pat, j) <==> OccursAt(s, pat, j + 1)
  {
    if j + 1 <= |s| - |pat| {
      assert s[1..][j..j + |pat|] == s[j + 1..j + 1 + |pat|];
    }
  }

  /** Go removes `lo ` inside a word as well: "hello eth0" loses its "lo ". */
  lemma RemoveInsideWord()
    ensures RemoveAll("auto hello eth0", "lo ") == "auto heleth0"
  {
    var s := "auto hello eth0";
    NoLoSpaceBefore(s);
    RemoveAllLeftmost(s, "lo ", 8);
    NoLoSpaceInEth0();
    assert "auto hel" + "eth0" == "auto heleth0";
  }

  lemma NoLoSpaceBefore(s: string)
    requires s == "auto hello eth0"
    ensures OccursAt(s, "lo ", 8)
    ensures forall j :: 0 <= j < 8 ==> !OccursAt(s, "lo ", j)
    ensures s[..8] == "auto hel" && s[11..] == "eth0"
  {
    assert s[8..11] == "lo ";
    forall j | 0 <= j < 8 ensures !OccursAt(s, "lo ", j) {
      assert s[j] != 'l' || s[j + 1] != 'o';
    }
  }

  lemma NoLoSpaceInEth0()
    ensures RemoveAll("eth0", "lo ") == "eth0"
  {
    assert !Occurs("eth0", "lo ") by {
      forall j ensures !OccursAt("eth0", "lo ", j) {
        if 0 <= j <= 1 { assert "eth0"[j] != 'l'; }
      }
    }
    RemoveAllAbsent("eth0", "lo ");
  }

  // ---------------------------------------------------------------------
  // strconv.Atoi on a 64-bit platform
  // ---------------------------------------------------------------------

  const MinInt64: int := -0x8000_0000_0000_0000
  const MaxInt64: int := 0x7FFF_FFFF_FFFF_FFFF

  predicate IsDigit(ch: char) { '0' <= ch <= '9' }

  predicate AllDigits(s: string) {
    forall k :: 0 <= k < |s| ==> IsDigit(s[k])
  }

  function DigitValue(ch: char): nat
    requires IsDigit(ch)
  {
    ch as int - '0' as int
  }

  /** The value of a run of decimal digits, most significant first. */
  function DigitsValue(s: string): nat
    requires AllDigits(s)
  {
    if |s| == 0 then 0 else DigitsValue(s[..|s| - 1]) * 10 + DigitValue(s[|s| - 1])
  }

  /** `strconv.Atoi(s)`: an optional sign followed by at least one decimal
      digit, whose value fits Go's 64-bit `int`; anything else is an error. */
  function Atoi(s: string): (r: Option<int>)
    ensures r.Some? ==> MinInt64 <= r.value <= MaxInt64
    ensures r.Some? ==> |s| > 0 && forall k :: 0 < k < |s| ==> IsDigit(s[k])
    ensures r.Some? ==> IsDigit(s[0]) || ((s[0] == '-' || s[0] == '+') && |s| >= 2)
    ensures r.Some? ==> (r.value < 0 ==> s[0] == '-')
  {
    if |s| == 0 then None
    else
      var neg := s[0] == '-';
      var digits := if s[0] == '-' || s[0] == '+' then s[1..] else s;
      if |digits| == 0 || !AllDigits(digits) then None
      else
        var n: int := DigitsValue(digits);
        var v: int := if neg then -n else n;
        if MinInt64 <= v <= MaxInt64 then Some(v) else None
  }

  /** The decimal notation of a natural number, without leading zeros. */
  function Decimal(n: nat): (s: string)
    ensures |s| >= 1 && AllDigits(s)
  {
    if n < 10 then ['0' + n as char]
    else Decimal(n / 10) + ['0' + (n % 10) as char]
  }

  lemma {:induction false} DigitsValueDecimal(n: nat)
    ensures DigitsValue(Decimal(n)) == n
  {
    if n >= 10 {
      DigitsValueDecimal(n / 10);
      var s := Decimal(n);
      assert s[..|s| - 1] == Decimal(n / 10);
    }
  }

  /** A count written in decimal, as the kernel writes `ad_num_ports`, is read
      back exactly. */
  lemma AtoiDecimal(n: nat)
    requires n <= MaxInt64
    ensures Atoi(Decimal(n)) == Some(n)
  {
    DigitsValueDecimal(n);
    var s := Decimal(n);
    assert s[0] != '-' && s[0] != '+' by { assert IsDigit(s[0]); }
  }
}
