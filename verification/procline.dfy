/**
 * One registry entry and how a line becomes one: the field validators
 * (`_is_not_null_or_empty`, `_validate_port`), the all-or-nothing record
 * builder `_parse_procinfo_line` and `_destroy_procline` (src/procinfo.c).
 */
module ProcLine {
  import opened Wrappers
  import opened Tokenizer

  /**
   * One registry entry (`procline_t`; its fields are listed at
   * src/procinfo.h:6-17). The six text fields are C strings; a NULL text
   * field is modelled as the empty string.
   */
  datatype Record = Record(
    index: int,
    valid: bool,
    name: string,
    svr: string,
    ioportStr: string,
    cmdportStr: string,
    binName: string,
    attr: string,
    ioport: int,
    cmdport: int)

  /** `_PROCINFO_COLUME_NUM`: a line is read as exactly this many columns. */
  const ColumnCount: nat := 6

  /** A record after `memset(dest, '\0', ...)` and `valid = 0`. */
  const Zeroed := Record(0, false, "", "", "", "", "", "", 0, 0)

  /** A record after `_destroy_procline`: no text, index and ports -1, not valid. */
  const Cleared := Record(-1, false, "", "", "", "", "", "", -1, -1)

  /** The text field that column `k` is copied into (the `dest_ptr` switch). */
  function Field(r: Record, k: nat): string
    requires k < ColumnCount
  {
    if k == 0 then r.name
    else if k == 1 then r.svr
    else if k == 2 then r.ioportStr
    else if k == 3 then r.cmdportStr
    else if k == 4 then r.binName
    else r.attr
  }

  /** `*dest_ptr = copy`: store `t` into the field of column `k`, nothing else changes. */
  function SetField(r: Record, k: nat, t: string): (r': Record)
    requires k < ColumnCount
    ensures Field(r', k) == t
    ensures forall j | 0 <= j < ColumnCount && j != k :: Field(r', j) == Field(r, j)
    ensures r'.index == r.index && r'.valid == r.valid
    ensures r'.ioport == r.ioport && r'.cmdport == r.cmdport
  {
    if k == 0 then r.(name := t)
    else if k == 1 then r.(svr := t)
    else if k == 2 then r.(ioportStr := t)
    else if k == 3 then r.(cmdportStr := t)
    else if k == 4 then r.(binName := t)
    else r.(attr := t)
  }

  /** The validator a column is given: non-empty text, a port, or none at all. */
  datatype Check = NotEmpty | Port | Unchecked

  /** `valid_func_ptr` per column: name, svr, bin_name non-empty; both ports numeric; attr unchecked. */
  function CheckOf(k: nat): Check
    requires k < ColumnCount
  {
    if k == 2 || k == 3 then Port
    else if k == 5 then Unchecked
    else NotEmpty
  }

  /** What `_validate_port` accepts: a non-empty string of decimal digits. */
  predicate IsPort(t: string)
  {
    |t| > 0 && forall k | 0 <= k < |t| :: IsDigit(t[k])
  }

  /** Whether column text `t` passes check `c` (`_is_not_null_or_empty` is a length test on a token). */
  predicate Passes(c: Check, t: string)
  {
    match c
    case NotEmpty => |t| > 0
    case Port => IsPort(t)
    case Unchecked => true
  }

  /** `_validate_port`: reject the empty string, then reject at the first non-digit. */
  method ValidatePort(t: string) returns (ok: bool)
    ensures ok <==> IsPort(t)
  {
    if |t| == 0 {
      return false;
    }
    var ix := 0;
    while ix < |t|
      invariant ix <= |t|
      invariant forall k | 0 <= k < ix :: IsDigit(t[k])
    {
      if !IsDigit(t[ix]) {
        return false;
      }
      ix := ix + 1;
    }
    return true;
  }

  /** The value of one decimal digit. */
  function DigitValue(c: char): nat
    requires IsDigit(c)
  {
    c as int - '0' as int
  }

  /** 10 to the power `n`. */
  function Pow10(n: nat): (p: nat)
    ensures p >= 1
  {
    if n == 0 then 1 else 10 * Pow10(n - 1)
  }

  /**
   * The base-10 value of a digit string, as `strtol(str, NULL, 10)` reads it:
   * a string of `n` digits has a value below 10^n, and the empty string reads as 0.
   */
  function DecimalValue(t: string): (v: nat)
    requires forall k | 0 <= k < |t| :: IsDigit(t[k])
    ensures v < Pow10(|t|)
    ensures |t| == 0 ==> v == 0
  {
    if |t| == 0 then 0
    else DecimalValue(t[..|t| - 1]) * 10 + DigitValue(t[|t| - 1])
  }

  /** Every column passes the validator of its position. */
  predicate ColumnsOk(cols: seq<string>)
    requires |cols| == ColumnCount
  {
    && Passes(CheckOf(0), cols[0]) && Passes(CheckOf(1), cols[1]) && Passes(CheckOf(2), cols[2])
    && Passes(CheckOf(3), cols[3]) && Passes(CheckOf(4), cols[4]) && Passes(CheckOf(5), cols[5])
  }

  /** The record built from six validated columns, with its ports parsed. */
  function FromColumns(cols: seq<string>): Record
    requires |cols| == ColumnCount && ColumnsOk(cols)
  {
    assert Passes(CheckOf(2), cols[2]) && Passes(CheckOf(3), cols[3]);
    Record(0, true, cols[0], cols[1], cols[2], cols[3], cols[4], cols[5],
           DecimalValue(cols[2]), DecimalValue(cols[3]))
  }

  /**
   * `_parse_procinfo_line` as a value: no record for an inactive line or for
   * a line one of whose six columns fails its validator, otherwise the
   * record of those six columns. Anything after the sixth column is ignored.
   */
  function ParseLine(s: string): (r: Option<Record>)
    ensures r.Some? ==> IsActive(s) && r.value.valid && r.value.index == 0
    ensures r.Some? ==> |r.value.name| > 0 && |r.value.svr| > 0 && |r.value.binName| > 0
    ensures r.Some? ==> IsPort(r.value.ioportStr) && IsPort(r.value.cmdportStr)
  {
    if !IsActive(s) then None
    else
      var cols := Columns(s, ColumnCount);
      if ColumnsOk(cols) then Some(FromColumns(cols)) else None
  }

  /** The text fields of a record could have been read as columns of a line. */
  predicate TextWellFormed(r: Record)
  {
    && IsToken(r.name) && IsToken(r.svr) && IsToken(r.ioportStr)
    && IsToken(r.cmdportStr) && IsToken(r.binName) && IsToken(r.attr)
    && |r.name| > 0 && |r.svr| > 0 && |r.binName| > 0
    && IsPort(r.ioportStr) && IsPort(r.cmdportStr)
  }

  /** A fully built record: valid, well-formed text, numeric ports equal to their digit strings. */
  predicate WellFormed(r: Record)
  {
    && r.valid
    && TextWellFormed(r)
    && r.ioport == DecimalValue(r.ioportStr)
    && r.cmdport == DecimalValue(r.cmdportStr)
  }

  /**
   * A line yields a record exactly when it is active, its first, second and
   * fifth columns are non-empty and its third and fourth are ports; the
   * sixth (attr) is not checked. Such a record is well formed, holds the six
   * columns in order and has index 0.
   */
  lemma ParseLineSound(s: string)
    ensures ParseLine(s).Some? <==>
      var cols := Columns(s, ColumnCount);
      && IsActive(s)
      && |cols[0]| > 0 && |cols[1]| > 0 && IsPort(cols[2]) && IsPort(cols[3]) && |cols[4]| > 0
    ensures ParseLine(s).Some? ==>
      var r, cols := ParseLine(s).value, Columns(s, ColumnCount);
      && WellFormed(r) && r.index == 0
      && forall k | 0 <= k < ColumnCount :: Field(r, k) == cols[k]
  {
    var cols := Columns(s, ColumnCount);
    assert CheckOf(0) == NotEmpty && CheckOf(1) == NotEmpty && CheckOf(2) == Port;
    assert CheckOf(3) == Port && CheckOf(4) == NotEmpty && CheckOf(5) == Unchecked;
    ColumnsAreTokens(s, ColumnCount);
  }

  /** The columns of the line from offset `jx` on are the last ones of `cols`, from `col` on. */
  ghost predicate ColumnsFrom(s: string, jx: nat, cols: seq<string>, col: nat)
    requires jx <= |s| && col <= |cols|
  {
    Columns(s[jx..], |cols| - col) == cols[col..]
  }

  /**
   * One turn of the column loop: scanning from `jx`, where the remaining
   * columns are `cols[col..]`, yields `cols[col]` and leaves the rest.
   */
  lemma NextColumn(s: string, jx: nat, cols: seq<string>, col: nat, start: nat, len: nat, adv: nat)
    requires jx <= |s| && col < |cols|
    requires ColumnsFrom(s, jx, cols, col)
    requires Span(start, len, adv) == Column(s[jx..])
    ensures jx + adv <= |s| && jx + start + len <= |s|
    ensures s[jx + start..jx + start + len] == cols[col]
    ensures ColumnsFrom(s, jx + adv, cols, col + 1)
  {
    var t := s[jx..];
    assert t[start..adv] == s[jx + start..jx + start + len];
    assert t[adv..] == s[jx + adv..];
    assert cols[col..][0] == cols[col];
    assert cols[col..][1..] == cols[col + 1..];
  }

  /** The slot after `memset` and the copies of the first `n` columns. */
  function Filled(cols: seq<string>, n: nat): Record
    requires n <= |cols| == ColumnCount
  {
    if n == 0 then Zeroed else SetField(Filled(cols, n - 1), n - 1, cols[n - 1])
  }

  /** With all six columns copied and checked, parsing the ports and setting `valid` gives the record. */
  lemma FilledAll(cols: seq<string>)
    requires |cols| == ColumnCount && ColumnsOk(cols)
    ensures var d := Filled(cols, ColumnCount);
      && IsPort(d.ioportStr) && IsPort(d.cmdportStr)
      && d.(ioport := DecimalValue(d.ioportStr), cmdport := DecimalValue(d.cmdportStr), valid := true)
         == FromColumns(cols)
  {
    assert Passes(CheckOf(2), cols[2]) && Passes(CheckOf(3), cols[3]);
    var d := Filled(cols, ColumnCount);
    assert Filled(cols, 1) == Zeroed.(name := cols[0]);
    assert Filled(cols, 2) == Zeroed.(name := cols[0], svr := cols[1]);
    assert Filled(cols, 3) == Zeroed.(name := cols[0], svr := cols[1], ioportStr := cols[2]);
    assert Filled(cols, 4) == Zeroed.(name := cols[0], svr := cols[1], ioportStr := cols[2], cmdportStr := cols[3]);
    assert Filled(cols, 5) == Zeroed.(name := cols[0], svr := cols[1], ioportStr := cols[2], cmdportStr := cols[3],
                                      binName := cols[4]);
  }

  /**
   * The column at `jx` as the loop of `_parse_procinfo_line` reads it:
   * `_get_column(&str[jx], ...)`, then the copy of `len` characters from
   * `str[jx + start]`; `ret` is how far the scan advanced.
   */
  method ReadColumn(s: string, jx: nat, ghost cols: seq<string>, ghost col: nat)
    returns (tok: string, ret: nat)
    requires jx <= |s| && col < |cols|
    requires ColumnsFrom(s, jx, cols, col)
    ensures tok == cols[col]
    ensures jx + ret <= |s| && ColumnsFrom(s, jx + ret, cols, col + 1)
  {
    var start, len;
    start, len, ret := GetColumn(s[jx..]);
    NextColumn(s, jx, cols, col, start, len, ret);
    tok := s[jx + start..jx + start + len];
  }

  /** The call through `valid_func_ptr`: run the column's validator, if it has one. */
  method RunCheck(c: Check, tok: string) returns (ok: bool)
    ensures ok <==> Passes(c, tok)
  {
    match c {
      case NotEmpty => ok := |tok| > 0;
      case Port => ok := ValidatePort(tok);
      case Unchecked => ok := true;
    }
  }

  /**
   * `_destroy_procline` on slot `i`: every text field is released (empty),
   * index and ports become -1 and the record is no longer valid.
   */
  method DestroyProcLine(a: array<Record>, i: nat)
    requires i < a.Length
    modifies a
    ensures a[i] == Cleared
    ensures forall j | 0 <= j < a.Length && j != i :: a[j] == old(a[j])
  {
    a[i] := Cleared;
  }

  /**
   * `_parse_procinfo_line` into slot `i`: an inactive line returns 0 and
   * leaves the slot alone; otherwise the line's columns are copied in (see
   * `CopyColumns`), and the slot ends up holding the parsed record (result
   * 1) or, when some column fails its check, nothing at all (result 0).
   */
  method ParseInto(dest: array<Record>, i: nat, s: string) returns (rc: int)
    requires i < dest.Length
    modifies dest
    ensures forall j | 0 <= j < dest.Length && j != i :: dest[j] == old(dest[j])
    ensures !IsActive(s) ==> rc == 0 && dest[i] == old(dest[i])
    ensures IsActive(s) && ParseLine(s).None? ==> rc == 0 && dest[i] == Cleared
    ensures ParseLine(s).Some? ==> rc == 1 && dest[i] == ParseLine(s).value
  {
    if !IsActive(s) {
      return 0;
    }
    rc := CopyColumns(dest, i, s);
  }

  /**
   * The body of `_parse_procinfo_line` after the activity test: clear the
   * slot, then for each of the six columns in order copy its text into its
   * field and run its check; the first failure clears the whole slot and
   * returns 0; when all six pass, the ports are parsed, the record is marked
   * valid and 1 is returned.
   */
  method CopyColumns(dest: array<Record>, i: nat, s: string) returns (rc: int)
    requires i < dest.Length
    modifies dest
    ensures forall j | 0 <= j < dest.Length && j != i :: dest[j] == old(dest[j])
    ensures var cols := Columns(s, ColumnCount);
      && (ColumnsOk(cols) ==> rc == 1 && dest[i] == FromColumns(cols))
      && (!ColumnsOk(cols) ==> rc == 0 && dest[i] == Cleared)
  {
    dest[i] := Zeroed;
    ghost var cols := Columns(s, ColumnCount);
    var col: nat, jx: nat := 0, 0;
    assert ColumnsFrom(s, jx, cols, col) by { assert s[jx..] == s && cols[col..] == cols; }
    while col < ColumnCount
      invariant col <= ColumnCount == |cols| && jx <= |s|
      invariant ColumnsFrom(s, jx, cols, col)
      invariant forall k | 0 <= k < col :: Passes(CheckOf(k), cols[k])
      invariant dest[i] == Filled(cols, col)
      invariant forall j | 0 <= j < dest.Length && j != i :: dest[j] == old(dest[j])
    {
      var ok, ret := CopyColumn(dest, i, s, jx, cols, col);
      if !ok {
        FailedCheck(cols, col);
        DestroyProcLine(dest, i);
        return 0;
      }
      col, jx := col + 1, jx + ret;
    }
    FilledAll(cols);
    dest[i] := dest[i].(ioport := DecimalValue(dest[i].ioportStr),
                        cmdport := DecimalValue(dest[i].cmdportStr),
                        valid := true);
    return 1;
  }

  /**
   * One turn of the column loop of `_parse_procinfo_line`: read column `col`
   * of the line starting at `jx`, copy it into its field of slot `i`, and run
   * its check.
   */
  method CopyColumn(dest: array<Record>, i: nat, s: string, jx: nat, ghost cols: seq<string>, col: nat)
    returns (ok: bool, ret: nat)
    requires i < dest.Length && jx <= |s| && col < ColumnCount == |cols|
    requires ColumnsFrom(s, jx, cols, col)
    requires dest[i] == Filled(cols, col)
    modifies dest
    ensures forall j | 0 <= j < dest.Length && j != i :: dest[j] == old(dest[j])
    ensures dest[i] == Filled(cols, col + 1)
    ensures ok <==> Passes(CheckOf(col), cols[col])
    ensures jx + ret <= |s| && ColumnsFrom(s, jx + ret, cols, col + 1)
  {
    var tok;
    tok, ret := ReadColumn(s, jx, cols, col);
    dest[i] := SetField(dest[i], col, tok);
    ok := RunCheck(CheckOf(col), tok);
  }

  /** A column that fails its check makes the whole line fail. */
  lemma FailedCheck(cols: seq<string>, col: nat)
    requires col < ColumnCount == |cols|
    requires !Passes(CheckOf(col), cols[col])
    ensures !ColumnsOk(cols)
  {
  }
}
