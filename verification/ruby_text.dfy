/** The Ruby `String` behaviours the key store relies on: `strip`,
    `split(/\s+/)` and the second component of a public-key line. */
module RubyText {
  import opened Wrappers
  import opened Sequences

  /** The characters of the regular-expression class `\s`: space, tab, line
      feed, vertical tab, form feed and carriage return. */
  predicate IsSpace(c: char) {
    c == ' ' || c == '\t' || c == '\n' || c == '\r' || c as int == 11 || c as int == 12
  }

  predicate NotSpace(c: char) {
    !IsSpace(c)
  }

  predicate NoSpace(s: string) {
    forall i :: 0 <= i < |s| ==> !IsSpace(s[i])
  }

  /** The characters `String#strip` removes: the `\s` characters and NUL. */
  predicate IsStripSpace(c: char) {
    IsSpace(c) || c == '\0'
  }

  predicate NotStripSpace(c: char) {
    !IsStripSpace(c)
  }

  predicate AllStripSpace(s: string) {
    forall i :: 0 <= i < |s| ==> IsStripSpace(s[i])
  }

  /** `s[a..b]` is `s` with the strip-space runs at both ends cut off: what is
      cut is all strip-space, and what is kept neither starts nor ends with it. */
  ghost predicate StripBounds(s: string, a: int, b: int) {
    && 0 <= a <= b <= |s|
    && AllStripSpace(s[..a])
    && AllStripSpace(s[b..])
    && (a < b ==> NotStripSpace(s[a]) && NotStripSpace(s[b - 1]))
  }

  /** Ruby's `String#strip`. */
  function Strip(s: string): (r: string)
    ensures |r| <= |s|
    ensures r != [] ==> NotStripSpace(r[0]) && NotStripSpace(r[|r| - 1])
  {
    var a := Find(s, 0, NotStripSpace);
    var b := FindBack(s, |s|, NotStripSpace);
    if b <= a then [] else s[a..b]
  }

  /** `Strip` cuts off exactly the strip-space runs at both ends. */
  lemma StripTrimsBothEnds(s: string)
    ensures exists a, b :: StripBounds(s, a, b) && Strip(s) == s[a..b]
  {
    var a := Find(s, 0, NotStripSpace);
    var b := FindBack(s, |s|, NotStripSpace);
    if b <= a {
      assert StripBounds(s, |s|, |s|);
    } else {
      assert StripBounds(s, a, b);
    }
  }

  /** The strip bounds are unique, so whatever they are, `Strip` keeps exactly
      what lies between them. */
  lemma StripKeepsBetweenBounds(s: string, a: int, b: int)
    requires StripBounds(s, a, b)
    ensures Strip(s) == s[a..b]
  {
    StripTrimsBothEnds(s);
  }

  /** The fields of `s[from..]` between maximal runs of `\s`, keeping every
      empty field. */
  function RawFields(s: string, from: nat): (f: seq<string>)
    requires from <= |s|
    ensures |f| >= 1
    ensures f[0] == s[from..Find(s, from, IsSpace)]
    ensures forall i :: 0 <= i < |f| ==> NoSpace(f[i])
    ensures forall i :: 1 <= i < |f| - 1 ==> f[i] != []
    decreases |s| - from
  {
    var k := Find(s, from, IsSpace);
    if k == |s| then
      [s[from..]]
    else
      var j := Find(s, k, NotSpace);
      var rest := RawFields(s, j);
      assert j < |s| ==> rest[0] != [] by {
        if j < |s| {
          assert Find(s, j, IsSpace) > j;
        }
      }
      assert j == |s| ==> |rest| == 1;
      [s[from..k]] + rest
  }

  /** `f` without its trailing empty fields. */
  function DropTrailingEmpty(f: seq<string>): (r: seq<string>)
    ensures |r| <= |f| && r == f[..|r|]
    ensures forall i :: |r| <= i < |f| ==> f[i] == []
    ensures |r| > 0 ==> r[|r| - 1] != []
  {
    if |f| > 0 && f[|f| - 1] == [] then DropTrailingEmpty(f[..|f| - 1]) else f
  }

  /** Ruby's `split(/\s+/)`: a leading empty field is kept, trailing empty
      fields are dropped. */
  function Split(s: string): (r: seq<string>)
    ensures forall i :: 0 <= i < |r| ==> NoSpace(r[i])
    ensures forall i :: 1 <= i < |r| ==> r[i] != []
  {
    DropTrailingEmpty(RawFields(s, 0))
  }

  /** Ruby's `split(/\s+/)[1]`, `None` standing for `nil`. */
  function SecondToken(s: string): (r: Option<string>)
    ensures r.Some? ==> r.value != [] && NoSpace(r.value)
  {
    var f := Split(s);
    if |f| >= 2 then Some(f[1]) else None
  }

  /** `s[j..k]` is the second whitespace-delimited word of `s`: `s[..i]` holds
      no whitespace (it may be empty), `s[i..j]` is a whitespace run and
      `s[j..k]` is a maximal non-empty word after it. */
  ghost predicate SecondWordAt(s: string, i: int, j: int, k: int) {
    && 0 <= i < j < k <= |s|
    && (forall m :: 0 <= m < i ==> !IsSpace(s[m]))
    && (forall m :: i <= m < j ==> IsSpace(s[m]))
    && (forall m :: j <= m < k ==> !IsSpace(s[m]))
    && (k < |s| ==> IsSpace(s[k]))
  }

  /** The bounds of the second word are the ones a left-to-right scan finds. */
  lemma SecondWordAtIsScan(s: string, i: int, j: int, k: int)
    requires SecondWordAt(s, i, j, k)
    ensures i == Find(s, 0, IsSpace)
    ensures j == Find(s, i, NotSpace)
    ensures k == Find(s, j, IsSpace)
  {
    FindIs(s, 0, IsSpace, i);
    FindIs(s, i, NotSpace, j);
    FindIs(s, j, IsSpace, k);
  }

  /** `SecondToken` finds exactly the second word of the line, and finds
      nothing when the line has no second word. */
  lemma {:induction false} SecondTokenIsSecondWord(s: string, t: string)
    ensures SecondToken(s) == Some(t) <==> exists i, j, k :: SecondWordAt(s, i, j, k) && t == s[j..k]
  {
    var i0 := Find(s, 0, IsSpace);
    var f := RawFields(s, 0);
    var r := DropTrailingEmpty(f);
    assert Split(s) == r;
    if i0 == |s| {
      assert |f| == 1;
      forall i, j, k | SecondWordAt(s, i, j, k) ensures i == |s| {
        SecondWordAtIsScan(s, i, j, k);
      }
    } else {
      var j0 := Find(s, i0, NotSpace);
      var rest := RawFields(s, j0);
      assert f == [s[..i0]] + rest;
      if j0 == |s| {
        assert rest == [[]];
        assert |r| <= 1;
        forall i, j, k | SecondWordAt(s, i, j, k) ensures j == |s| {
          SecondWordAtIsScan(s, i, j, k);
        }
      } else {
        var k0 := Find(s, j0, IsSpace);
        assert k0 > j0;
        assert f[1] == s[j0..k0] && f[1] != [];
        assert |r| >= 2;
        assert SecondToken(s) == Some(s[j0..k0]);
        assert SecondWordAt(s, i0, j0, k0);
        forall i, j, k | SecondWordAt(s, i, j, k) ensures s[j..k] == s[j0..k0] {
          SecondWordAtIsScan(s, i, j, k);
        }
      }
    }
  }

  /** A key line `<algorithm> <material><rest>` has `material` as its second
      token whatever comment follows, and whether or not the algorithm label
      is empty. */
  lemma KeyLineToken(algorithm: string, material: string, rest: string)
    requires NoSpace(algorithm)
    requires material != [] && NoSpace(material)
    requires rest == [] || IsSpace(rest[0])
    ensures SecondToken(algorithm + " " + material + rest) == Some(material)
  {
    var s := algorithm + " " + material + rest;
    var i, j, k := |algorithm|, |algorithm| + 1, |algorithm| + 1 + |material|;
    assert s[j..k] == material;
    assert SecondWordAt(s, i, j, k) by {
      forall m | 0 <= m < i ensures !IsSpace(s[m]) {
        assert s[m] == algorithm[m];
      }
      forall m | j <= m < k ensures !IsSpace(s[m]) {
        assert s[m] == material[m - j];
      }
      if k < |s| {
        assert s[k] == rest[0];
      }
    }
    SecondTokenIsSecondWord(s, material);
  }

  /** A line without whitespace has no second token: the fail-closed case
      for a bare string such as `notakey`. */
  lemma NoSecondTokenWithoutSpace(s: string)
    requires NoSpace(s)
    ensures SecondToken(s) == None
  {
    if SecondToken(s).Some? {
      SecondTokenIsSecondWord(s, SecondToken(s).value);
    }
  }
}
