// Values shared by every module of the model: optional values and
// results (Rust's Option and Result), paths as component sequences,
// Rust's whitespace trimming, decimal integer text, and line splitting.

module Common {

  datatype Option<T> = None | Some(value: T)

  datatype Result<T, E> = Ok(value: T) | Err(error: E)

  /** A path is the sequence of its components; `[]` is the root. */
  type Path = seq<string>

  /** `Path::starts_with`: a component-wise prefix test. */
  predicate IsPrefix<T(==)>(p: seq<T>, q: seq<T>)
  {
    |p| <= |q| && q[..|p|] == p
  }

  /** Adding the same element to equal multisets gives equal multisets. */
  lemma MultisetStep<T>(now: multiset<T>, before: multiset<T>, whole: multiset<T>, total: multiset<T>, x: T)
    requires now == before + multiset{x} && before == whole && total == whole + multiset{x}
    ensures now == total
  {
  }

  /** Updating the right side of a merge is updating the merge. */
  lemma MergeUpdate<K, V>(a: map<K, V>, b: map<K, V>, k: K, v: V)
    ensures a + b[k := v] == (a + b)[k := v]
  {
  }

  /** A non-empty sequence holds its front part and its last element. */
  lemma MultisetLast<T>(s: seq<T>)
    requires |s| > 0
    ensures multiset(s) == multiset(s[..|s| - 1]) + multiset{s[|s| - 1]}
  {
    assert s == s[..|s| - 1] + [s[|s| - 1]];
  }

  /** Concatenation is associative. */
  lemma ConcatAssoc<T>(a: seq<T>, b: seq<T>, c: seq<T>)
    ensures a + (b + c) == (a + b) + c
  {
  }

  /** A path one entry longer than `p` and starting with `p` is `p` plus its last entry. */
  lemma ChildOf<T>(p: seq<T>, q: seq<T>)
    requires IsPrefix(p, q) && |q| == |p| + 1
    ensures q == p + [q[|p|]]
  {
    assert q == q[..|p|] + [q[|p|]];
  }

  lemma PrefixTransitive<T>(a: seq<T>, b: seq<T>, c: seq<T>)
    ensures IsPrefix(a, b) && IsPrefix(b, c) ==> IsPrefix(a, c)
  {
    if IsPrefix(a, b) && IsPrefix(b, c) {
      assert c[..|a|] == c[..|b|][..|a|];
    }
  }

  /** Two prefixes of one sequence are comparable. */
  lemma PrefixesComparable<T>(a: seq<T>, b: seq<T>, c: seq<T>)
    ensures IsPrefix(a, c) && IsPrefix(b, c) ==> IsPrefix(a, b) || IsPrefix(b, a)
  {
    if IsPrefix(a, c) && IsPrefix(b, c) {
      if |a| <= |b| {
        assert b[..|a|] == c[..|b|][..|a|];
      } else {
        assert a[..|b|] == c[..|a|][..|b|];
      }
    }
  }

  /** `Path::file_name`: the last component, absent for the root. */
  function FileName(p: Path): (r: Option<string>)
    ensures r.Some? <==> |p| > 0
    ensures r.Some? ==> p == p[..|p| - 1] + [r.value]
  {
    if |p| == 0 then None else Some(p[|p| - 1])
  }

  /** `Path::parent`: everything but the last component, absent for the root. */
  function Parent(p: Path): (r: Option<Path>)
    ensures r.Some? <==> |p| > 0
    ensures r.Some? ==> |r.value| + 1 == |p| && IsPrefix(r.value, p)
  {
    if |p| == 0 then None else Some(p[..|p| - 1])
  }

  /** Joining a parent and a file name gives back the path. */
  lemma ParentFileName(p: Path)
    requires |p| > 0
    ensures Parent(p).value + [FileName(p).value] == p
  {
  }

  // ---------------------------------------------------------------
  // Whitespace and trimming (Rust's `char::is_whitespace`, `trim`,
  // `trim_matches`).

  /** The Unicode White_Space characters, as `char::is_whitespace` tests them. */
  predicate IsWhitespace(c: char)
  {
    ('\U{9}' <= c <= '\U{D}') || c == ' ' || c == '\U{85}' || c == '\U{A0}'
    || c == '\U{1680}' || ('\U{2000}' <= c <= '\U{200A}') || c == '\U{2028}'
    || c == '\U{2029}' || c == '\U{202F}' || c == '\U{205F}' || c == '\U{3000}'
  }

  /** Drops the longest prefix whose characters all satisfy `drop`. */
  function TrimStartBy(s: string, drop: char -> bool): (r: string)
    ensures |r| <= |s| && r == s[|s| - |r|..]
    ensures forall i :: 0 <= i < |s| - |r| ==> drop(s[i])
    ensures |r| > 0 ==> !drop(r[0])
  {
    if |s| > 0 && drop(s[0]) then TrimStartBy(s[1..], drop) else s
  }

  /** Drops the longest suffix whose characters all satisfy `drop`. */
  function TrimEndBy(s: string, drop: char -> bool): (r: string)
    ensures |r| <= |s| && r == s[..|r|]
    ensures forall i :: |r| <= i < |s| ==> drop(s[i])
    ensures |r| > 0 ==> !drop(r[|r| - 1])
  {
    if |s| > 0 && drop(s[|s| - 1]) then TrimEndBy(s[..|s| - 1], drop) else s
  }

  /** `trim_matches(drop)`: both ends. */
  function TrimBy(s: string, drop: char -> bool): (r: string)
    ensures |r| > 0 ==> !drop(r[0]) && !drop(r[|r| - 1])
    ensures |r| <= |s|
    ensures forall c :: c in r ==> c in s
  {
    var a := TrimStartBy(s, drop);
    var b := TrimEndBy(a, drop);
    assert forall c :: c in b ==> c in a;
    b
  }

  /** `str::trim`. */
  function Trim(s: string): string
  {
    TrimBy(s, IsWhitespace)
  }

  // ---------------------------------------------------------------
  // Prefixes and substrings of text.

  predicate StartsWith(s: string, prefix: string)
  {
    IsPrefix(prefix, s)
  }

  /** `str::contains` for a string pattern. */
  predicate Contains(s: string, pattern: string)
    decreases |s|
  {
    StartsWith(s, pattern) || (|s| > 0 && Contains(s[1..], pattern))
  }

  // ---------------------------------------------------------------
  // Decimal integers (`to_string` and `str::parse`).

  predicate IsDigit(c: char)
  {
    '0' <= c <= '9'
  }

  predicate AllDigits(s: string)
  {
    forall i :: 0 <= i < |s| ==> IsDigit(s[i])
  }

  function DigitChar(d: nat): (c: char)
    requires d < 10
    ensures IsDigit(c)
  {
    ('0' as int + d) as char
  }

  /** The value of a string of decimal digits. */
  function DigitsValue(s: string): nat
    requires AllDigits(s)
  {
    if |s| == 0 then 0
    else DigitsValue(s[..|s| - 1]) * 10 + (s[|s| - 1] as int - '0' as int)
  }

  /** Decimal text of a natural number, without leading zeros. */
  function NatToString(n: nat): (r: string)
    ensures |r| > 0 && AllDigits(r)
    ensures |r| > 1 ==> r[0] != '0'
  {
    if n < 10 then [DigitChar(n)] else NatToString(n / 10) + [DigitChar(n % 10)]
  }

  /** `i64::to_string` (and the other integer widths). */
  function IntToString(i: int): (r: string)
    ensures |r| > 0
  {
    if i < 0 then "-" + NatToString(-i) else NatToString(i)
  }

  lemma {:induction false} NatToStringValue(n: nat)
    ensures DigitsValue(NatToString(n)) == n
  {
    if n >= 10 {
      var s := NatToString(n);
      assert s[..|s| - 1] == NatToString(n / 10);
      NatToStringValue(n / 10);
    }
  }

  /** Different numbers have different decimal texts. */
  lemma NatToStringInjective(i: nat, j: nat)
    requires NatToString(i) == NatToString(j)
    ensures i == j
  {
    NatToStringValue(i);
    NatToStringValue(j);
  }

  /**
   * Rust's integer `from_str` before its range check: an optional
   * sign (a `-` only for signed targets), then at least one digit,
   * nothing else (no whitespace).
   */
  function ParseInteger(s: string, signed: bool): (r: Option<int>)
    ensures r.Some? && !signed ==> r.value >= 0
  {
    if |s| == 0 then None
    else if (s[0] == '+' || s[0] == '-') && |s| == 1 then None
    else if s[0] == '+' then
      if AllDigits(s[1..]) then Some(DigitsValue(s[1..]) as int) else None
    else if s[0] == '-' && signed then
      if AllDigits(s[1..]) then Some(0 - DigitsValue(s[1..]) as int) else None
    else if AllDigits(s) then Some(DigitsValue(s) as int)
    else None
  }

  const I32Min: int := -0x8000_0000
  const I32Max: int := 0x7FFF_FFFF
  const I64Min: int := -0x8000_0000_0000_0000
  const I64Max: int := 0x7FFF_FFFF_FFFF_FFFF
  const U64Max: int := 0xFFFF_FFFF_FFFF_FFFF

  /** `str::parse::<i64>`. */
  function ParseI64(s: string): (r: Option<int>)
    ensures r.Some? ==> I64Min <= r.value <= I64Max
  {
    match ParseInteger(s, true)
    case Some(v) => if I64Min <= v <= I64Max then Some(v) else None
    case None => None
  }

  /** `str::parse::<i32>`. */
  function ParseI32(s: string): (r: Option<int>)
    ensures r.Some? ==> I32Min <= r.value <= I32Max
  {
    match ParseInteger(s, true)
    case Some(v) => if I32Min <= v <= I32Max then Some(v) else None
    case None => None
  }

  /** `str::parse::<u64>`. */
  function ParseU64(s: string): (r: Option<int>)
    ensures r.Some? ==> 0 <= r.value <= U64Max
  {
    match ParseInteger(s, false)
    case Some(v) => if v <= U64Max then Some(v) else None
    case None => None
  }

  /** Writing an `i64` and parsing it back gives the same number. */
  lemma {:induction false} ParseI64IntToString(i: int)
    requires I64Min <= i <= I64Max
    ensures ParseI64(IntToString(i)) == Some(i)
  {
    var s := IntToString(i);
    if i < 0 {
      var d := NatToString(-i);
      assert s == "-" + d;
      assert s[0] == '-' && |s| > 1;
      assert s[1..] == d;
      NatToStringValue(-i);
      assert ParseInteger(s, true) == Some(0 - DigitsValue(d) as int);
    } else {
      assert s == NatToString(i);
      assert IsDigit(s[0]);
      NatToStringValue(i);
      assert ParseInteger(s, true) == Some(DigitsValue(s) as int);
    }
  }

  // ---------------------------------------------------------------
  // Arithmetic facts the solver does not find on its own.

  lemma MulMono(a: int, b: int, n: int)
    ensures n >= 0 && a <= b ==> n * a <= n * b
  {
  }

  /** Euclidean division is unique: `q` and `r` are the quotient and remainder of `x` by `n`. */
  lemma DivModUnique(x: int, n: int, q: int, r: int)
    requires n > 0 && 0 <= r < n && x == q * n + r
    ensures x / n == q && x % n == r
  {
    var q0 := x / n;
    var r0 := x % n;
    assert x == q0 * n + r0;
    assert (q - q0) * n == r0 - r;
    MulMono(1, q - q0, n);
    MulMono(1, q0 - q, n);
  }

  /** No element occurs twice. */
  predicate NoDuplicates<T(==)>(s: seq<T>)
  {
    forall i, j :: 0 <= i < j < |s| ==> s[i] != s[j]
  }

  // ---------------------------------------------------------------
  // Joining and splitting on a separator (`join`, `split`).

  /** `[..].join(sep)`. */
  function JoinWith(parts: seq<string>, sep: string): string
  {
    if |parts| == 0 then ""
    else if |parts| == 1 then parts[0]
    else parts[0] + sep + JoinWith(parts[1..], sep)
  }

  /** `str::split(c)`: always at least one piece; a trailing separator yields a final empty piece. */
  function SplitOn(s: string, c: char): (r: seq<string>)
    ensures |r| > 0
  {
    if |s| == 0 then [""]
    else if s[0] == c then [""] + SplitOn(s[1..], c)
    else
      var rest := SplitOn(s[1..], c);
      [[s[0]] + rest[0]] + rest[1..]
  }

  lemma {:induction false} SplitPiece(piece: string, tail: string, c: char)
    requires c !in piece
    ensures SplitOn(piece + [c] + tail, c) == [piece] + SplitOn(tail, c)
    ensures SplitOn(piece, c) == [piece]
  {
    if |piece| == 0 {
      assert piece + [c] + tail == [c] + tail;
      assert ([c] + tail)[1..] == tail;
    } else {
      assert (piece + [c] + tail)[1..] == piece[1..] + [c] + tail;
      SplitPiece(piece[1..], tail, c);
      assert [piece[0]] + piece[1..] == piece;
    }
  }

  /** Splitting a join recovers the parts when no part holds the separator. */
  lemma {:induction false} SplitJoin(parts: seq<string>, c: char)
    requires |parts| > 0
    requires forall i :: 0 <= i < |parts| ==> c !in parts[i]
    ensures SplitOn(JoinWith(parts, [c]), c) == parts
  {
    if |parts| == 1 {
      SplitPiece(parts[0], "", c);
    } else {
      SplitJoin(parts[1..], c);
      SplitPiece(parts[0], JoinWith(parts[1..], [c]), c);
      assert [parts[0]] + parts[1..] == parts;
    }
  }
}
