/** The pieces of Rust's standard library the two parsers lean on, stated
    on bytes: `str::parse::<u64>`, decimal formatting of integers,
    `str::split`, `str::splitn(2, _)`, `String::from_utf8` and the
    char-boundary check that guards `str` slicing. */
module Text {
  import opened Common

  // ---------------------------------------------------------------------
  // Decimal numbers

  predicate IsDigit(b: byte) { 48 <= b <= 57 }

  predicate AllDigits(d: bytes) { forall i | 0 <= i < |d| :: IsDigit(d[i]) }

  /** The number a run of decimal digits denotes, most significant first. */
  function DecimalValue(d: bytes): nat
    requires AllDigits(d)
  {
    if d == [] then 0 else DecimalValue(d[..|d| - 1]) * 10 + (d[|d| - 1] - 48) as nat
  }

  /** `s.parse::<u64>()`: an optional `+`, then at least one decimal digit,
      with a value that fits in 64 bits; anything else is an error. */
  function ParseU64(s: bytes): (r: Option<nat>)
    ensures r.Some? ==> r.value < U64_LIMIT
    ensures r.Some? <==>
      var d := if |s| > 0 && s[0] == PLUS then s[1..] else s;
      |d| > 0 && AllDigits(d) && DecimalValue(d) < U64_LIMIT
  {
    var d := if |s| > 0 && s[0] == PLUS then s[1..] else s;
    if |d| > 0 && AllDigits(d) && DecimalValue(d) < U64_LIMIT then Some(DecimalValue(d)) else None
  }

  /** `format!("{}", n)`: decimal digits without leading zeros. */
  function Decimal(n: nat): (r: bytes)
    ensures |r| > 0 && AllDigits(r)
    ensures |r| > 1 ==> r[0] != 48
    ensures DecimalValue(r) == n
  {
    if n < 10 then [(48 + n) as byte]
    else
      var r := Decimal(n / 10) + [(48 + n % 10) as byte];
      assert r[..|r| - 1] == Decimal(n / 10);
      r
  }

  /** Formatting a number and parsing it back as a `u64` gives the number. */
  lemma ParseDecimal(n: nat)
    requires n < U64_LIMIT
    ensures ParseU64(Decimal(n)) == Some(n)
  {
    var r := Decimal(n);
    assert r[0] != PLUS;
  }

  /** `k` zero digits. */
  function Zeros(k: nat): (r: bytes)
    ensures |r| == k && AllDigits(r)
  {
    seq(k, _ => 48)
  }

  /** The decimal form of `n` with an optional `+` and `k` leading zeros. */
  function Signed(plus: bool, k: nat, n: nat): bytes {
    (if plus then [PLUS] else []) + Zeros(k) + Decimal(n)
  }

  /** Leading zeros do not change the value of a run of digits. */
  lemma {:induction false} ZerosValue(k: nat, t: bytes)
    requires AllDigits(t)
    ensures AllDigits(Zeros(k) + t) && DecimalValue(Zeros(k) + t) == DecimalValue(t)
    decreases |t|, k
  {
    var z := Zeros(k);
    if t == [] {
      assert z + t == z;
      if k > 0 {
        assert z[..k - 1] == Zeros(k - 1);
        ZerosValue(k - 1, []);
        assert Zeros(k - 1) + [] == Zeros(k - 1);
      }
    } else {
      var u := t[..|t| - 1];
      assert (z + t)[..|z + t| - 1] == z + u;
      ZerosValue(k, u);
    }
  }

  /** Every non-empty run of digits is its value's decimal form after
      some leading zeros. */
  lemma {:induction false} DigitsShape(d: bytes)
    requires |d| > 0 && AllDigits(d)
    ensures |Decimal(DecimalValue(d))| <= |d|
    ensures d == Zeros(|d| - |Decimal(DecimalValue(d))|) + Decimal(DecimalValue(d))
    decreases |d|
  {
    var v := DecimalValue(d);
    var c := d[|d| - 1];
    var u := d[..|d| - 1];
    assert d == u + [c];
    if u == [] {
      assert Decimal(v) == [c];
      assert Zeros(0) == [];
    } else {
      DigitsShape(u);
      var w := DecimalValue(u);
      var k := |u| - |Decimal(w)|;
      if w == 0 {
        assert Decimal(w) == [48];
        assert Zeros(k) + [48] == Zeros(k + 1);
        assert Decimal(v) == [c];
        assert d == Zeros(k + 1) + [c];
      } else {
        assert v / 10 == w && 48 + v % 10 == c as nat;
        assert Decimal(v) == Decimal(w) + [c];
        assert d == Zeros(k) + Decimal(w) + [c];
      }
    }
  }

  /** What `ParseU64` accepts: exactly an optional `+`, any number of
      zeros and the decimal form of a number below 2^64. */
  lemma ParseU64Form(s: bytes, n: nat)
    requires ParseU64(s) == Some(n)
    ensures n < U64_LIMIT
    ensures exists plus: bool, k: nat :: s == Signed(plus, k, n)
  {
    var plus := |s| > 0 && s[0] == PLUS;
    var d := if plus then s[1..] else s;
    ParsedDigits(s, n);
    DigitsShape(d);
    var k := |d| - |Decimal(n)|;
    SignJoin(s);
    SignSplit(plus, Zeros(k), Decimal(n));
    assert s == Signed(plus, k, n);
  }

  /** The digits `ParseU64` reads, and their value. */
  lemma ParsedDigits(s: bytes, n: nat)
    requires ParseU64(s) == Some(n)
    ensures var d := if |s| > 0 && s[0] == PLUS then s[1..] else s;
      |d| > 0 && AllDigits(d) && DecimalValue(d) == n && n < U64_LIMIT
  {
  }

  /** A text is its optional `+` followed by the rest. */
  lemma SignJoin(s: bytes)
    ensures var plus := |s| > 0 && s[0] == PLUS;
      s == (if plus then [PLUS] else []) + (if plus then s[1..] else s)
  {
    if |s| > 0 && s[0] == PLUS {
      assert s == [s[0]] + s[1..];
    } else {
      assert s == [] + s;
    }
  }

  /** The converse: every such text parses to its number. */
  lemma ParseSigned(plus: bool, k: nat, n: nat)
    requires n < U64_LIMIT
    ensures ParseU64(Signed(plus, k, n)) == Some(n)
  {
    SignedDigits(plus, k, n);
  }

  /** A number of 2^64 or more does not fit and is an error. */
  lemma ParseOverflow(plus: bool, k: nat, n: nat)
    requires n >= U64_LIMIT
    ensures ParseU64(Signed(plus, k, n)) == None
  {
    SignedDigits(plus, k, n);
  }

  /** The digits after the optional `+` and their value. */
  lemma SignedDigits(plus: bool, k: nat, n: nat)
    ensures var s := Signed(plus, k, n);
      var d := Zeros(k) + Decimal(n);
      (if |s| > 0 && s[0] == PLUS then s[1..] else s) == d
      && |d| > 0 && AllDigits(d) && DecimalValue(d) == n
  {
    var d := Zeros(k) + Decimal(n);
    ZerosValue(k, Decimal(n));
    UnsignedStart(k, n);
    SignSplit(plus, Zeros(k), Decimal(n));
    StripSign(plus, d);
  }

  lemma UnsignedStart(k: nat, n: nat)
    ensures (Zeros(k) + Decimal(n))[0] != PLUS
  {
    if k > 0 {
      assert (Zeros(k) + Decimal(n))[0] == Zeros(k)[0];
    } else {
      assert Zeros(k) + Decimal(n) == Decimal(n);
    }
  }

  lemma SignSplit(plus: bool, z: bytes, t: bytes)
    ensures (if plus then [PLUS] else []) + z + t == (if plus then [PLUS] else []) + (z + t)
  {
  }

  /** Dropping the optional `+` in front of digits. */
  lemma StripSign(plus: bool, d: bytes)
    requires |d| > 0 && d[0] != PLUS
    ensures var s := (if plus then [PLUS] else []) + d;
      (if |s| > 0 && s[0] == PLUS then s[1..] else s) == d
  {
    if plus {
      assert ([PLUS] + d)[1..] == d;
    } else {
      assert [] + d == d;
    }
  }

  // ---------------------------------------------------------------------
  // Searching and splitting

  /** `sep` occurs in `s` starting at index `i`. */
  predicate OccursAt(s: bytes, sep: bytes, i: nat) {
    i + |sep| <= |s| && s[i..i + |sep|] == sep
  }

  predicate Free(s: bytes, sep: bytes) {
    forall j: nat | j <= |s| :: !OccursAt(s, sep, j)
  }

  /** The first occurrence of `sep` in `s` at or after `from`. */
  function IndexOf(s: bytes, sep: bytes, from: nat): (r: Option<nat>)
    requires from <= |s|
    ensures r.Some? ==> from <= r.value && OccursAt(s, sep, r.value)
    ensures r.Some? ==> forall j: nat | from <= j < r.value :: !OccursAt(s, sep, j)
    ensures r.None? ==> forall j: nat | from <= j :: !OccursAt(s, sep, j)
    decreases |s| - from
  {
    if OccursAt(s, sep, from) then Some(from)
    else if from == |s| then None
    else IndexOf(s, sep, from + 1)
  }

  /** The pieces joined back together with the separator between them. */
  function Join(pieces: seq<bytes>, sep: bytes): bytes {
    if pieces == [] then []
    else if |pieces| == 1 then pieces[0]
    else pieces[0] + sep + Join(pieces[1..], sep)
  }

  /** A prefix of `s` that stops before the first occurrence of `sep`
      contains no occurrence of it. */
  lemma PrefixFree(s: bytes, sep: bytes, i: nat)
    requires |sep| > 0 && i <= |s|
    requires forall j: nat | j < i :: !OccursAt(s, sep, j)
    ensures Free(s[..i], sep)
  {
    forall j: nat | j <= i ensures !OccursAt(s[..i], sep, j) {
      if OccursAt(s[..i], sep, j) {
        assert s[..i][j..j + |sep|] == s[j..j + |sep|];
        assert OccursAt(s, sep, j);
      }
    }
  }

  /** `s.split(sep)`: the pieces between the leftmost non-overlapping
      occurrences of `sep`.  They join back to `s` and none contains `sep`;
      for a separator that cannot overlap itself, such as `"; "`, that
      determines them, while for one like `"aa"` it leaves open which of
      the overlapping occurrences is cut. */
  function Split(s: bytes, sep: bytes): (r: seq<bytes>)
    requires |sep| > 0
    ensures |r| > 0
    ensures Join(r, sep) == s
    ensures forall k | 0 <= k < |r| :: Free(r[k], sep)
    decreases |s|
  {
    match IndexOf(s, sep, 0)
    case None =>
      assert s[..|s|] == s;
      PrefixFree(s, sep, |s|);
      [s]
    case Some(i) =>
      PrefixFree(s, sep, i);
      var rest := Split(s[i + |sep|..], sep);
      assert s == s[..i] + sep + s[i + |sep|..] by {
        assert s[i..i + |sep|] == sep;
        assert s == s[..i] + s[i..i + |sep|] + s[i + |sep|..];
      }
      [s[..i]] + rest
  }

  /** `s.splitn(2, sep)`: the whole of `s`, or the text before and after
      the first occurrence of `sep`. */
  function SplitOnce(s: bytes, sep: bytes): (r: seq<bytes>)
    requires |sep| > 0
    ensures |r| == 1 || |r| == 2
    ensures Join(r, sep) == s
    ensures Free(r[0], sep)
  {
    match IndexOf(s, sep, 0)
    case None =>
      assert s[..|s|] == s;
      PrefixFree(s, sep, |s|);
      [s]
    case Some(i) =>
      PrefixFree(s, sep, i);
      assert s == s[..i] + sep + s[i + |sep|..] by {
        assert s[i..i + |sep|] == sep;
        assert s == s[..i] + s[i..i + |sep|] + s[i + |sep|..];
      }
      [s[..i], s[i + |sep|..]]
  }

  // ---------------------------------------------------------------------
  // UTF-8

  predicate IsContinuation(b: byte) { 0x80 <= b <= 0xBF }

  /** Well-formed UTF-8 (the table of the Unicode standard that
      `String::from_utf8` checks): no overlong forms, no surrogates,
      nothing above U+10FFFF. */
  predicate ValidUtf8(s: bytes)
    decreases |s|
  {
    if s == [] then true
    else
      var b := s[0];
      if b < 0x80 then ValidUtf8(s[1..])
      else if 0xC2 <= b <= 0xDF then
        |s| >= 2 && IsContinuation(s[1]) && ValidUtf8(s[2..])
      else if b == 0xE0 then
        |s| >= 3 && 0xA0 <= s[1] <= 0xBF && IsContinuation(s[2]) && ValidUtf8(s[3..])
      else if 0xE1 <= b <= 0xEC || b == 0xEE || b == 0xEF then
        |s| >= 3 && IsContinuation(s[1]) && IsContinuation(s[2]) && ValidUtf8(s[3..])
      else if b == 0xED then
        |s| >= 3 && 0x80 <= s[1] <= 0x9F && IsContinuation(s[2]) && ValidUtf8(s[3..])
      else if b == 0xF0 then
        |s| >= 4 && 0x90 <= s[1] <= 0xBF && IsContinuation(s[2]) && IsContinuation(s[3])
        && ValidUtf8(s[4..])
      else if 0xF1 <= b <= 0xF3 then
        |s| >= 4 && IsContinuation(s[1]) && IsContinuation(s[2]) && IsContinuation(s[3])
        && ValidUtf8(s[4..])
      else if b == 0xF4 then
        |s| >= 4 && 0x80 <= s[1] <= 0x8F && IsContinuation(s[2]) && IsContinuation(s[3])
        && ValidUtf8(s[4..])
      else false
  }

  /** Text on one line: no CR and no LF. */
  predicate NoLineBreak(v: bytes) { forall i | 0 <= i < |v| :: v[i] != CR && v[i] != LF }

  predicate AllAscii(s: bytes) { forall i | 0 <= i < |s| :: s[i] < 0x80 }

  /** ASCII text is valid UTF-8. */
  lemma {:induction false} AsciiIsUtf8(s: bytes)
    requires AllAscii(s)
    ensures ValidUtf8(s)
  {
    if s != [] { AsciiIsUtf8(s[1..]); }
  }

  /** `str::is_char_boundary`. */
  predicate IsCharBoundary(s: bytes, i: nat) {
    i == 0 || i == |s| || (i < |s| && !IsContinuation(s[i]))
  }

  /** `&v[1..v.len() - 1]` on a `str`: drop the first and the last byte.
      It panics when `v` is shorter than two bytes (the range is reversed,
      or the subtraction underflows) or when either end is not a
      char boundary. */
  function StripEnds(v: bytes): (r: Result<bytes>)
    ensures r.Ok? <==> |v| >= 2 && IsCharBoundary(v, 1) && IsCharBoundary(v, |v| - 1)
    ensures r.Ok? ==> [v[0]] + r.value + [v[|v| - 1]] == v
    ensures r.Err? ==> r.error == SliceOutOfBounds
  {
    if |v| >= 2 && IsCharBoundary(v, 1) && IsCharBoundary(v, |v| - 1) then
      assert v == [v[0]] + v[1..|v| - 1] + [v[|v| - 1]];
      Ok(v[1..|v| - 1])
    else Err(SliceOutOfBounds)
  }
}
