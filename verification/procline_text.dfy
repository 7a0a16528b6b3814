/**
 * Records as text: the field-by-field ordering `_cmp_procline` and the
 * printed form `get_procline_str` (src/procinfo.c), and how the printed
 * form reads back through `_parse_procinfo_line`.
 */
module ProcLineText {
  import opened Wrappers
  import opened Tokenizer
  import opened ProcLine

  /**
   * `strcmp`, reduced to the sign of its result: 0 for equal strings,
   * otherwise decided by the first differing character, and a proper prefix
   * comes first.
   */
  function StrCmp(a: string, b: string): (r: int)
    ensures -1 <= r <= 1
  {
    if a == [] && b == [] then 0
    else if a == [] then -1
    else if b == [] then 1
    else if a[0] < b[0] then -1
    else if a[0] > b[0] then 1
    else StrCmp(a[1..], b[1..])
  }

  /** `strcmp` reports equality exactly for equal strings. */
  lemma {:induction false} StrCmpZeroIff(a: string, b: string)
    ensures StrCmp(a, b) == 0 <==> a == b
    decreases |a|
  {
    if a != [] && b != [] && a[0] == b[0] {
      StrCmpZeroIff(a[1..], b[1..]);
      assert a == [a[0]] + a[1..] && b == [b[0]] + b[1..];
    }
  }

  /** Swapping the arguments of `strcmp` flips the sign. */
  lemma {:induction false} StrCmpAntisym(a: string, b: string)
    ensures StrCmp(b, a) == -StrCmp(a, b)
    decreases |a|
  {
    if a != [] && b != [] && a[0] == b[0] {
      StrCmpAntisym(a[1..], b[1..]);
    }
  }

  /** Two strings that agree up to `k` and differ at `k` compare as their characters at `k`. */
  lemma {:induction false} StrCmpFirstDifference(a: string, b: string, k: nat)
    requires k < |a| && k < |b| && a[..k] == b[..k] && a[k] != b[k]
    ensures StrCmp(a, b) == if a[k] < b[k] then -1 else 1
    decreases k
  {
    if k > 0 {
      assert a[0] == a[..k][0] == b[..k][0] == b[0];
      assert a[1..][..k - 1] == a[..k][1..] == b[..k][1..] == b[1..][..k - 1];
      StrCmpFirstDifference(a[1..], b[1..], k - 1);
    }
  }

  /** A proper prefix compares below the longer string. */
  lemma {:induction false} StrCmpPrefix(a: string, b: string)
    requires |a| < |b| && a == b[..|a|]
    ensures StrCmp(a, b) == -1
    decreases |a|
  {
    if a != [] {
      assert a[0] == b[0];
      assert a[1..] == b[1..][..|a| - 1];
      StrCmpPrefix(a[1..], b[1..]);
    }
  }

  /**
   * `_cmp_procline`: compare name, svr, ioport_str, cmdport_str, bin_name
   * and attr in that order; the first field that differs decides.
   */
  function Cmp(p: Record, q: Record): (r: int)
    ensures -1 <= r <= 1
  {
    var c0 := StrCmp(p.name, q.name);
    if c0 != 0 then c0 else
    var c1 := StrCmp(p.svr, q.svr);
    if c1 != 0 then c1 else
    var c2 := StrCmp(p.ioportStr, q.ioportStr);
    if c2 != 0 then c2 else
    var c3 := StrCmp(p.cmdportStr, q.cmdportStr);
    if c3 != 0 then c3 else
    var c4 := StrCmp(p.binName, q.binName);
    if c4 != 0 then c4 else
    StrCmp(p.attr, q.attr)
  }

  /** The six text fields of two records agree. */
  predicate SameText(p: Record, q: Record)
  {
    forall k | 0 <= k < ColumnCount :: Field(p, k) == Field(q, k)
  }

  /**
   * Two records compare equal exactly when their six text fields agree; the
   * index, the valid flag and the numeric ports play no part.
   */
  lemma CmpZeroIff(p: Record, q: Record)
    ensures Cmp(p, q) == 0 <==> SameText(p, q)
  {
    StrCmpZeroIff(p.name, q.name);
    StrCmpZeroIff(p.svr, q.svr);
    StrCmpZeroIff(p.ioportStr, q.ioportStr);
    StrCmpZeroIff(p.cmdportStr, q.cmdportStr);
    StrCmpZeroIff(p.binName, q.binName);
    StrCmpZeroIff(p.attr, q.attr);
    if SameText(p, q) {
      assert Field(p, 0) == Field(q, 0) && Field(p, 1) == Field(q, 1) && Field(p, 2) == Field(q, 2);
      assert Field(p, 3) == Field(q, 3) && Field(p, 4) == Field(q, 4) && Field(p, 5) == Field(q, 5);
    }
  }

  /** Swapping the records flips the sign of the comparison. */
  lemma CmpAntisym(p: Record, q: Record)
    ensures Cmp(q, p) == -Cmp(p, q)
  {
    StrCmpAntisym(p.name, q.name);
    StrCmpAntisym(p.svr, q.svr);
    StrCmpAntisym(p.ioportStr, q.ioportStr);
    StrCmpAntisym(p.cmdportStr, q.cmdportStr);
    StrCmpAntisym(p.binName, q.binName);
    StrCmpAntisym(p.attr, q.attr);
  }

  /** The comparison is `strcmp` of the first text field in which the records differ. */
  lemma CmpFirstDifference(p: Record, q: Record, k: nat)
    requires k < ColumnCount
    requires forall j | 0 <= j < k :: Field(p, j) == Field(q, j)
    requires Field(p, k) != Field(q, k)
    ensures Cmp(p, q) == StrCmp(Field(p, k), Field(q, k)) != 0
  {
    StrCmpZeroIff(p.name, q.name);
    StrCmpZeroIff(p.svr, q.svr);
    StrCmpZeroIff(p.ioportStr, q.ioportStr);
    StrCmpZeroIff(p.cmdportStr, q.cmdportStr);
    StrCmpZeroIff(p.binName, q.binName);
    StrCmpZeroIff(p.attr, q.attr);
    if k > 0 { assert Field(p, 0) == Field(q, 0); }
    if k > 1 { assert Field(p, 1) == Field(q, 1); }
    if k > 2 { assert Field(p, 2) == Field(q, 2); }
    if k > 3 { assert Field(p, 3) == Field(q, 3); }
    if k > 4 { assert Field(p, 4) == Field(q, 4); }
  }

  /**
   * The line `get_procline_str` prints: the six text fields separated by
   * single blanks. With one character per byte (ASCII text), its length is
   * the count `sprintf` returns.
   */
  function Format(r: Record): (line: string)
    ensures |line| == |r.name| + |r.svr| + |r.ioportStr| + |r.cmdportStr| + |r.binName| + |r.attr| + 5
  {
    r.name + " " + r.svr + " " + r.ioportStr + " " + r.cmdportStr + " " + r.binName + " " + r.attr
  }

  /** The fields after the name, in printing order. */
  function Trailing(r: Record): seq<string>
  {
    [r.svr, r.ioportStr, r.cmdportStr, r.binName, r.attr]
  }

  /** Moving one blank-and-field off the end of `a` onto the front of `rest`. */
  lemma ShiftField(a: string, t: string, rest: string)
    ensures a + " " + t + rest == a + ([' '] + (t + rest))
  {
  }

  /** `a`, then each of `fs` after a single blank: the layout of `"%s %s ..."`. */
  function Joined(a: string, fs: seq<string>): string
    decreases |fs|
  {
    if fs == [] then a else Joined(a + " " + fs[0], fs[1..])
  }

  /** Laying out `fs` after `a` with single blanks is `a` followed by `SpacedThen(fs, post)`. */
  lemma {:induction false} JoinedSpaced(a: string, fs: seq<string>, post: string)
    ensures Joined(a, fs) + post == a + SpacedThen(fs, post)
    decreases |fs|
  {
    if fs != [] {
      JoinedSpaced(a + " " + fs[0], fs[1..], post);
      ShiftField(a, fs[0], SpacedThen(fs[1..], post));
    }
  }

  /** The printed line is the name followed by the other fields, each after one blank. */
  lemma FormatSpaced(r: Record, post: string)
    ensures Format(r) + post == r.name + SpacedThen(Trailing(r), post)
  {
    var fs := Trailing(r);
    var f2 := r.name + " " + r.svr;
    var f3 := f2 + " " + r.ioportStr;
    var f4 := f3 + " " + r.cmdportStr;
    var f5 := f4 + " " + r.binName;
    assert Joined(f5 + " " + r.attr, []) == Format(r);
    assert Joined(f5, [r.attr]) == Joined(f5 + " " + r.attr, []);
    assert Joined(f4, [r.binName, r.attr]) == Joined(f5, [r.attr]);
    assert Joined(f3, [r.cmdportStr, r.binName, r.attr]) == Joined(f4, [r.binName, r.attr]);
    assert Joined(f2, fs[1..]) == Joined(f3, [r.cmdportStr, r.binName, r.attr]);
    JoinedSpaced(r.name, fs, post);
  }

  /** The fields after the name of a well-formed record can be laid out and read back. */
  lemma TrailingSpacedOk(r: Record, post: string)
    requires TextWellFormed(r) && (r.attr == [] ==> post == [])
    ensures SpacedOk(Trailing(r), post)
  {
    var fs := Trailing(r);
    assert fs[1..] == [r.ioportStr, r.cmdportStr, r.binName, r.attr];
    assert fs[2..] == [r.cmdportStr, r.binName, r.attr];
    assert fs[3..] == [r.binName, r.attr];
    assert fs[4..] == [r.attr];
    assert SpacedOk(fs[5..], post);
    assert SpacedOk(fs[4..], post);
    assert SpacedOk(fs[3..], post);
    assert SpacedOk(fs[2..], post);
    assert SpacedOk(fs[1..], post);
  }

  /** The six columns of a printed record are its six text fields. */
  lemma FormatColumns(r: Record, post: string)
    requires TextWellFormed(r)
    requires Separated(post) && (r.attr == [] ==> post == [])
    ensures Columns(Format(r) + post, ColumnCount) == [r.name] + Trailing(r)
  {
    FormatSpaced(r, post);
    TrailingSpacedOk(r, post);
    ColumnsOfLine(r.name, Trailing(r), post, 0);
    assert Trailing(r) + Columns(post, 0) == Trailing(r);
  }

  /**
   * The printed form of a record whose text fields could have come from a
   * line, followed by a newline, a NUL, more blank-separated text or
   * nothing, reads back as a record with the same text. A fully built record
   * reads back as itself, up to its index. The name must not start with `#`,
   * or the printed line would be a comment; an empty attr must end the line.
   */
  lemma FormatParse(r: Record, post: string)
    requires TextWellFormed(r) && r.name[0] != '#'
    requires Separated(post) && (r.attr == [] ==> post == [])
    ensures ParseLine(Format(r) + post).Some?
    ensures SameText(ParseLine(Format(r) + post).value, r)
    ensures WellFormed(r) ==> ParseLine(Format(r) + post) == Some(r.(index := 0))
  {
    var s := Format(r) + post;
    FormatColumns(r, post);
    var cols := Columns(s, ColumnCount);
    assert s[0] == r.name[0];
    assert CheckOf(0) == NotEmpty && CheckOf(1) == NotEmpty && CheckOf(2) == Port;
    assert CheckOf(3) == Port && CheckOf(4) == NotEmpty && CheckOf(5) == Unchecked;
    assert ColumnsOk(cols);
    var p := ParseLine(s).value;
    assert p == FromColumns(cols);
    assert Field(p, 0) == Field(r, 0) && Field(p, 1) == Field(r, 1) && Field(p, 2) == Field(r, 2);
    assert Field(p, 3) == Field(r, 3) && Field(p, 4) == Field(r, 4) && Field(p, 5) == Field(r, 5);
  }

  /** A line that ends after the fifth field: the name, then the next four fields each after one blank. */
  lemma FiveSpaced(r: Record, post: string)
    ensures r.name + " " + r.svr + " " + r.ioportStr + " " + r.cmdportStr + " " + r.binName + post
         == r.name + SpacedThen([r.svr, r.ioportStr, r.cmdportStr, r.binName], post)
  {
    var fs := [r.svr, r.ioportStr, r.cmdportStr, r.binName];
    var f2 := r.name + " " + r.svr;
    var f3 := f2 + " " + r.ioportStr;
    var f4 := f3 + " " + r.cmdportStr;
    assert Joined(f4 + " " + r.binName, []) == f4 + " " + r.binName;
    assert Joined(f4, [r.binName]) == Joined(f4 + " " + r.binName, []);
    assert Joined(f3, [r.cmdportStr, r.binName]) == Joined(f4, [r.binName]);
    assert Joined(f2, fs[1..]) == Joined(f3, [r.cmdportStr, r.binName]);
    JoinedSpaced(r.name, fs, post);
  }

  /**
   * The attr column is not checked: a line that ends (or reaches NUL, CR or
   * LF) right after the fifth field is accepted, with an empty attr.
   */
  lemma ParseFiveColumns(r: Record, post: string)
    requires TextWellFormed(r) && r.attr == [] && r.name[0] != '#' && AtEnd(post)
    ensures var s := r.name + " " + r.svr + " " + r.ioportStr + " " + r.cmdportStr + " " + r.binName + post;
      ParseLine(s).Some? && SameText(ParseLine(s).value, r)
  {
    var fs := [r.svr, r.ioportStr, r.cmdportStr, r.binName];
    var s := r.name + " " + r.svr + " " + r.ioportStr + " " + r.cmdportStr + " " + r.binName + post;
    FiveSpaced(r, post);
    assert SpacedOk(fs, post) by {
      assert fs[1..][1..][1..][1..] == [];
      assert SpacedOk(fs[1..][1..][1..], post);
      assert SpacedOk(fs[1..][1..], post);
      assert SpacedOk(fs[1..], post);
    }
    ColumnsOfLine(r.name, fs, post, 1);
    ColumnsAtEnd(post, 1);
    var cols := Columns(s, ColumnCount);
    assert cols == [r.name] + fs + [[]];
    assert s[0] == r.name[0];
    assert CheckOf(0) == NotEmpty && CheckOf(1) == NotEmpty && CheckOf(2) == Port;
    assert CheckOf(3) == Port && CheckOf(4) == NotEmpty && CheckOf(5) == Unchecked;
    assert ColumnsOk(cols);
    var p := ParseLine(s).value;
    assert p == FromColumns(cols);
    assert Field(p, 0) == Field(r, 0) && Field(p, 1) == Field(r, 1) && Field(p, 2) == Field(r, 2);
    assert Field(p, 3) == Field(r, 3) && Field(p, 4) == Field(r, 4) && Field(p, 5) == Field(r, 5);
  }

  /** A record printed and read back compares equal to the original under `_cmp_procline`. */
  lemma FormatRoundTrip(r: Record)
    requires TextWellFormed(r) && r.name[0] != '#'
    ensures ParseLine(Format(r)).Some? && Cmp(ParseLine(Format(r)).value, r) == 0
  {
    assert Format(r) + [] == Format(r);
    FormatParse(r, []);
    CmpZeroIff(ParseLine(Format(r)).value, r);
  }
}
