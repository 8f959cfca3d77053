/** What `EffectAppendHeader` makes of a part's headers: `split("; ")` and
    `splitn(2, "=")` undo the joins that build a `Content-Disposition`
    value, so a value `<kind>; name="<n>"; filename="<f>"` names the part
    `<n>` and its file `<f>`. */
module MultipartHeaders {
  import opened Common
  import opened Text
  import opened Multipart

  const QUOTE: byte := 34

  /** `s` holds no byte `c`. */
  predicate Lacks(s: bytes, c: byte) { forall k | 0 <= k < |s| :: s[k] != c }

  /** A separator starts at the end of `p` and nowhere before it. */
  lemma FirstOccurrence(p: bytes, sep: bytes, rest: bytes)
    requires |sep| > 0 && Lacks(p, sep[0])
    ensures OccursAt(p + sep + rest, sep, |p|)
    ensures forall j: nat | j < |p| :: !OccursAt(p + sep + rest, sep, j)
  {
    var s := p + sep + rest;
    assert s[|p|..|p| + |sep|] == sep;
    forall j: nat | j < |p| ensures !OccursAt(s, sep, j) {
      assert s[j] == p[j];
    }
  }

  /** `s` holds no separator at all. */
  lemma NoOccurrence(s: bytes, sep: bytes)
    requires |sep| > 0 && Lacks(s, sep[0])
    ensures forall j: nat :: !OccursAt(s, sep, j)
  {
    forall j: nat | j < |s| ensures s[j] != sep[0] {
    }
  }

  /** `split` undoes `join` when no piece holds the separator's first
      byte. */
  lemma {:induction false} SplitJoin(pieces: seq<bytes>, sep: bytes)
    requires |sep| > 0 && |pieces| > 0
    requires forall k | 0 <= k < |pieces| :: Lacks(pieces[k], sep[0])
    ensures Split(Join(pieces, sep), sep) == pieces
    decreases |pieces|
  {
    var s := Join(pieces, sep);
    if |pieces| == 1 {
      NoOccurrence(s, sep);
      assert IndexOf(s, sep, 0).None?;
    } else {
      var p, rest := pieces[0], Join(pieces[1..], sep);
      FirstOccurrence(p, sep, rest);
      var i := IndexOf(s, sep, 0);
      assert i == Some(|p|);
      assert s[..|p|] == p && s[|p| + |sep|..] == rest;
      SplitJoin(pieces[1..], sep);
      assert [p] + pieces[1..] == pieces;
    }
  }

  /** `splitn(2, sep)` cuts at the separator after `a` when `a` does not
      hold its first byte. */
  lemma SplitOnceJoin(a: bytes, sep: bytes, c: bytes)
    requires |sep| > 0 && Lacks(a, sep[0])
    ensures SplitOnce(a + sep + c, sep) == [a, c]
  {
    var s := a + sep + c;
    FirstOccurrence(a, sep, c);
    assert IndexOf(s, sep, 0) == Some(|a|);
    assert s[..|a|] == a && s[|a| + |sep|..] == c;
  }

  /** ... and leaves `a` whole when it holds no separator. */
  lemma SplitOnceWhole(a: bytes, sep: bytes)
    requires |sep| > 0 && Lacks(a, sep[0])
    ensures SplitOnce(a, sep) == [a]
  {
    NoOccurrence(a, sep);
    assert IndexOf(a, sep, 0).None?;
  }

  /** `"<v>"`. */
  function Quoted(v: bytes): bytes { [QUOTE] + v + [QUOTE] }

  /** `<key>=<value>`. */
  function Parameter(key: bytes, value: bytes): bytes { key + PARAMETER_SEPARATOR + value }

  /** `<kind>; name="<n>"; filename="<f>"`. */
  function DispositionValue(kind: bytes, n: bytes, f: bytes): bytes {
    Join([kind, Parameter(NAME, Quoted(n)), Parameter(FILENAME, Quoted(f))], ITEM_SEPARATOR)
  }

  /** Dropping the quotes around ASCII text gives the text back. */
  lemma StripQuotes(v: bytes)
    requires AllAscii(v)
    ensures StripEnds(Quoted(v)) == Ok(v)
  {
    var q := Quoted(v);
    assert q[1..|q| - 1] == v;
  }

  lemma LacksParameter(key: bytes, v: bytes)
    requires Lacks(key, SEMICOLON) && Lacks(v, SEMICOLON)
    ensures Lacks(Parameter(key, Quoted(v)), SEMICOLON)
  {
    var p := Parameter(key, Quoted(v));
    forall k | 0 <= k < |p| ensures p[k] != SEMICOLON {
      if k < |key| { assert p[k] == key[k]; }
      else if k > |key| + 1 && k < |p| - 1 { assert p[k] == v[k - |key| - 2]; }
    }
  }

  lemma JoinThree(x: bytes, y: bytes, z: bytes, sep: bytes)
    ensures Join([x, y, z], sep) == x + sep + (y + sep + z)
  {
    assert [x, y, z][1..] == [y, z];
    assert [y, z][1..] == [z];
    assert Join([z], sep) == z;
    assert Join([y, z], sep) == y + sep + z;
  }

  lemma AsciiValue(kind: bytes, n: bytes, f: bytes)
    requires AllAscii(kind) && AllAscii(n) && AllAscii(f)
    ensures AllAscii(DispositionValue(kind, n, f))
  {
    var a, b := Parameter(NAME, Quoted(n)), Parameter(FILENAME, Quoted(f));
    JoinThree(kind, a, b, ITEM_SEPARATOR);
    assert AllAscii(Quoted(n)) && AllAscii(Quoted(f));
    assert AllAscii(NAME) && AllAscii(FILENAME) && AllAscii(ITEM_SEPARATOR);
    assert AllAscii(a) && AllAscii(b);
  }

  /** No item of a disposition value holds a `;`. */
  lemma ItemsLackSemicolon(kind: bytes, n: bytes, f: bytes)
    requires Lacks(kind, SEMICOLON) && Lacks(n, SEMICOLON) && Lacks(f, SEMICOLON)
    ensures var items := [kind, Parameter(NAME, Quoted(n)), Parameter(FILENAME, Quoted(f))];
      forall k | 0 <= k < |items| :: Lacks(items[k], SEMICOLON)
  {
    LacksParameter(NAME, n);
    LacksParameter(FILENAME, f);
  }

  /** The pairs of a disposition value: the kind alone, then the name and
      the file name with their quotes. */
  lemma PairsOfValue(kind: bytes, n: bytes, f: bytes)
    requires Lacks(kind, SEMICOLON) && Lacks(kind, EQUALS)
    requires Lacks(n, SEMICOLON) && Lacks(f, SEMICOLON)
    ensures Pairs(DispositionValue(kind, n, f)) == [[kind], [NAME, Quoted(n)], [FILENAME, Quoted(f)]]
  {
    var items := [kind, Parameter(NAME, Quoted(n)), Parameter(FILENAME, Quoted(f))];
    ItemsOfValue(kind, n, f);
    PairsOfItems(DispositionValue(kind, n, f), items);
    KindPair(kind);
    ParameterPair(NAME, Quoted(n));
    ParameterPair(FILENAME, Quoted(f));
  }

  /** `split("; ")` gives back the three items of a disposition value. */
  lemma ItemsOfValue(kind: bytes, n: bytes, f: bytes)
    requires Lacks(kind, SEMICOLON) && Lacks(n, SEMICOLON) && Lacks(f, SEMICOLON)
    ensures Split(DispositionValue(kind, n, f), ITEM_SEPARATOR)
         == [kind, Parameter(NAME, Quoted(n)), Parameter(FILENAME, Quoted(f))]
  {
    ItemsLackSemicolon(kind, n, f);
    SplitJoin([kind, Parameter(NAME, Quoted(n)), Parameter(FILENAME, Quoted(f))], ITEM_SEPARATOR);
  }

  /** A value that splits into three items has one pair per item. */
  lemma PairsOfItems(value: bytes, items: seq<bytes>)
    requires |items| == 3 && Split(value, ITEM_SEPARATOR) == items
    ensures Pairs(value) == [SplitOnce(items[0], PARAMETER_SEPARATOR),
                             SplitOnce(items[1], PARAMETER_SEPARATOR),
                             SplitOnce(items[2], PARAMETER_SEPARATOR)]
  {
  }

  /** An item without `=` is a pair of one. */
  lemma KindPair(kind: bytes)
    requires Lacks(kind, EQUALS)
    ensures SplitOnce(kind, PARAMETER_SEPARATOR) == [kind]
  {
    SplitOnceWhole(kind, PARAMETER_SEPARATOR);
  }

  /** `name=<v>` and `filename=<v>` split into the key and the value. */
  lemma ParameterPair(key: bytes, v: bytes)
    requires key == NAME || key == FILENAME
    ensures SplitOnce(Parameter(key, v), PARAMETER_SEPARATOR) == [key, v]
  {
    assert Lacks(key, EQUALS);
    SplitOnceJoin(key, PARAMETER_SEPARATOR, v);
  }

  /** A `Content-Disposition` header `<kind>; name="<n>"; filename="<f>"`
      sets the part's name to `<n>` and its file name to `<f>`, and
      nothing else. */
  lemma DispositionNamesPart(part: FormDataPart, kind: bytes, n: bytes, f: bytes)
    requires AllAscii(kind) && AllAscii(n) && AllAscii(f)
    requires Lacks(kind, SEMICOLON) && Lacks(kind, EQUALS)
    requires Lacks(n, SEMICOLON) && Lacks(f, SEMICOLON)
    ensures ApplyHeader(part, CONTENT_DISPOSITION, DispositionValue(kind, n, f))
         == Ok(part.(name := Some(n), filename := Some(f)))
  {
    assert AllAscii(CONTENT_DISPOSITION);
    AsciiIsUtf8(CONTENT_DISPOSITION);
    AsciiValue(kind, n, f);
    AsciiIsUtf8(DispositionValue(kind, n, f));
    PairsOfValue(kind, n, f);
    StripQuotes(n);
    StripQuotes(f);
    DispositionSteps(part, kind, n, f);
  }

  lemma DispositionSteps(part: FormDataPart, kind: bytes, n: bytes, f: bytes)
    requires AllAscii(n) && AllAscii(f)
    ensures Disposition(part, [[kind], [NAME, Quoted(n)], [FILENAME, Quoted(f)]])
         == Ok(part.(name := Some(n), filename := Some(f)))
  {
    StripQuotes(n);
    StripQuotes(f);
    var p1 := part.(name := Some(n));
    var p2 := p1.(filename := Some(f));
    var third := [[FILENAME, Quoted(f)]];
    var second := [[NAME, Quoted(n)]] + third;
    assert third[1..] == [];
    assert FILENAME != NAME;
    assert Disposition(p1, third) == Disposition(p2, []);
    assert second[1..] == third;
    assert Disposition(part, second) == Disposition(p1, third);
    assert [[kind]] + second == [[kind], [NAME, Quoted(n)], [FILENAME, Quoted(f)]];
    assert ([[kind]] + second)[1..] == second;
  }

  /** A `name` or `filename` parameter shorter than two bytes makes the
      quote-stripping slice panic. */
  lemma ShortParameterPanics(part: FormDataPart, key: bytes, v: bytes)
    requires key == NAME || key == FILENAME
    requires |v| < 2
    ensures Disposition(part, [[key, v]]) == Err(SliceOutOfBounds)
  {
  }
}
