/**
 * The process registry table (`procinfo_t` in src/procinfo.c): loading it
 * from the lines of a registry file (`load_procinfo`, `_get_filep_line_num`),
 * the three first-match lookups (`_find_procline`, `get_procline`,
 * `get_procline_by_bin`, `get_procline_by_name`) and `destroy_procinfo`.
 */
module ProcInfo {
  import opened Wrappers
  import opened Tokenizer
  import opened ProcLine
  import opened ProcLineText

  /**
   * The registry file as `load_procinfo` sees it: it cannot be opened, or it
   * yields `lines` (each string one `fgets` result) on both passes, and
   * `ferror` is or is not set at the end of the counting pass and of the
   * parsing pass.
   */
  datatype Source = CannotOpen | Opened(lines: seq<string>, countError: bool, readError: bool)

  /** The number of active lines. */
  function ActiveCount(lines: seq<string>): (n: nat)
    ensures n <= |lines|
  {
    if lines == [] then 0
    else ActiveCount(lines[..|lines| - 1]) + (if IsActive(lines[|lines| - 1]) then 1 else 0)
  }

  /** The records of the lines that parse, in file order, each as `ParseLine` builds it. */
  function Accepted(lines: seq<string>): (rs: seq<Record>)
    ensures |rs| <= |lines|
    ensures forall k | 0 <= k < |rs| :: rs[k].valid && rs[k].index == 0
  {
    if lines == [] then []
    else
      var earlier := Accepted(lines[..|lines| - 1]);
      match ParseLine(lines[|lines| - 1])
      case Some(r) => earlier + [r]
      case None => earlier
  }

  /** Records with `index` set to their position. */
  function Numbered(rs: seq<Record>): (ns: seq<Record>)
    ensures |ns| == |rs|
  {
    seq(|rs|, k requires 0 <= k < |rs| => rs[k].(index := k))
  }

  /** `_get_filep_line_num`: the number of active lines, or -1 on a read error. */
  method CountActiveLines(lines: seq<string>, readError: bool) returns (rc: int)
    ensures rc == if readError then -1 else ActiveCount(lines)
  {
    rc := 0;
    var i := 0;
    while i < |lines|
      invariant i <= |lines|
      invariant rc == ActiveCount(lines[..i])
    {
      assert lines[..i + 1][..i] == lines[..i];
      if IsActive(lines[i]) {
        rc := rc + 1;
      }
      i := i + 1;
    }
    assert lines[..i] == lines;
    if readError {
      rc := -1;
    }
  }

  /** Lines read one after another: the active ones add up. */
  lemma {:induction false} ActiveCountAppend(a: seq<string>, b: seq<string>)
    ensures ActiveCount(a + b) == ActiveCount(a) + ActiveCount(b)
    decreases |b|
  {
    if b != [] {
      var b' := b[..|b| - 1];
      assert (a + b)[..|a + b| - 1] == a + b';
      ActiveCountAppend(a, b');
    } else {
      assert a + b == a;
    }
  }

  /** Lines read one after another: the accepted records follow each other. */
  lemma {:induction false} AcceptedAppend(a: seq<string>, b: seq<string>)
    ensures Accepted(a + b) == Accepted(a) + Accepted(b)
    decreases |b|
  {
    if b != [] {
      var b' := b[..|b| - 1];
      assert (a + b)[..|a + b| - 1] == a + b';
      AcceptedAppend(a, b');
    } else {
      assert a + b == a;
    }
  }

  /** Only active lines are accepted, so there are never more records than active lines. */
  lemma {:induction false} AcceptedBound(lines: seq<string>)
    ensures |Accepted(lines)| <= ActiveCount(lines)
    decreases |lines|
  {
    if lines != [] {
      AcceptedBound(lines[..|lines| - 1]);
    }
  }

  /** Every accepted record is well formed, with index 0 until the table numbers it. */
  lemma {:induction false} AcceptedWellFormed(lines: seq<string>)
    ensures forall k | 0 <= k < |Accepted(lines)| :: WellFormed(Accepted(lines)[k]) && Accepted(lines)[k].index == 0
    decreases |lines|
  {
    if lines != [] {
      AcceptedWellFormed(lines[..|lines| - 1]);
      ParseLineSound(lines[|lines| - 1]);
    }
  }

  /** There are as many records as active lines exactly when every active line parses. */
  lemma {:induction false} AcceptedAll(lines: seq<string>)
    ensures |Accepted(lines)| == ActiveCount(lines) <==>
      forall k | 0 <= k < |lines| :: IsActive(lines[k]) ==> ParseLine(lines[k]).Some?
    decreases |lines|
  {
    if lines != [] {
      var init := lines[..|lines| - 1];
      var last := lines[|lines| - 1];
      AcceptedAll(init);
      AcceptedBound(init);
      assert forall k | 0 <= k < |init| :: init[k] == lines[k];
      if forall k | 0 <= k < |lines| :: IsActive(lines[k]) ==> ParseLine(lines[k]).Some? {
        assert IsActive(last) ==> ParseLine(last).Some?;
      }
    }
  }

  /** Lines none of which is active yield no record. */
  lemma NoActiveNoneAccepted(lines: seq<string>)
    requires ActiveCount(lines) == 0
    ensures Accepted(lines) == []
  {
    AcceptedBound(lines);
  }

  /** Numbering one more record leaves the earlier ones alone. */
  lemma NumberedAppend(rs: seq<Record>, r: Record)
    ensures Numbered(rs + [r]) == Numbered(rs) + [r.(index := |rs|)]
  {
  }

  /** `arr[..ix]` holds the numbered records of the first `i` lines. */
  ghost predicate LoadedSoFar(arr: array<Record>, ix: nat, lines: seq<string>, i: nat)
    requires ix <= arr.Length && i <= |lines|
    reads arr
  {
    arr[..ix] == Numbered(Accepted(lines[..i]))
  }

  /** A key of the first-match lookups. */
  datatype Key = Text(r: Record) | Bin(bin: string) | Name(name: string)

  /**
   * What a lookup compares: `_cmp_procline` against the key record, or
   * `strcmp` of bin_name or of name against the key string.
   */
  predicate Matches(r: Record, key: Key)
  {
    match key
    case Text(q) => Cmp(r, q) == 0
    case Bin(t) => StrCmp(r.binName, t) == 0
    case Name(t) => StrCmp(r.name, t) == 0
  }

  /** A record matches a key exactly when the compared fields are equal. */
  lemma MatchesIff(r: Record, key: Key)
    ensures key.Text? ==> (Matches(r, key) <==> SameText(r, key.r))
    ensures key.Bin? ==> (Matches(r, key) <==> r.binName == key.bin)
    ensures key.Name? ==> (Matches(r, key) <==> r.name == key.name)
  {
    match key
    case Text(q) => CmpZeroIff(r, q);
    case Bin(t) => StrCmpZeroIff(r.binName, t);
    case Name(t) => StrCmpZeroIff(r.name, t);
  }

  /** `p` is the position of the first record of `rs` that matches `key`, or None if none does. */
  predicate IsFirstMatch(rs: seq<Record>, key: Key, p: Option<nat>)
  {
    match p
    case Some(k) => k < |rs| && Matches(rs[k], key) && forall j | 0 <= j < k :: !Matches(rs[j], key)
    case None => forall j | 0 <= j < |rs| :: !Matches(rs[j], key)
  }

  /**
   * `procinfo_t`: the records in `line[..num]`. The array is in place;
   * `load_procinfo` replaces it and `destroy_procinfo` clears its slots.
   * After `destroy_procinfo` the first `num` slots hold NULL text, which the
   * lookups would pass to `strcmp`; `destroyed` marks that state, and the
   * lookups may not be called in it.
   */
  class Table {
    var line: array<Record>
    var num: int
    ghost var destroyed: bool

    /**
     * `num` counts the records at the front of `line`; until the table is
     * destroyed each of them is well formed and numbered with its slot.
     */
    ghost predicate Valid()
      reads this, line
    {
      && 0 <= num <= line.Length
      && (!destroyed ==> forall k | 0 <= k < num :: line[k].index == k && WellFormed(line[k]))
    }

    /** The records of the table, in slot order. */
    ghost function Contents(): seq<Record>
      reads this, line
      requires Valid()
    {
      line[..num]
    }

    /** An empty table, as before `load_procinfo`. */
    constructor ()
      ensures Valid() && Contents() == [] && !destroyed
    {
      line := new Record[0];
      num := 0;
      destroyed := false;
    }

    /**
     * `load_procinfo` fed `f`. It fails (returns 0, `num` 0, array kept)
     * when the file cannot be opened, when the counting pass hits a read
     * error or finds no active line, or when the parsing pass hits a read
     * error; otherwise the new array holds the accepted records in file
     * order, each with its position as index, and their number is returned.
     */
    method Load(f: Source) returns (rc: int)
      modifies this
      ensures Valid() && !destroyed
      ensures f.CannotOpen? || f.countError || ActiveCount(f.lines) == 0 || f.readError ==>
        rc == 0 && num == 0 && line == old(line)
      ensures f.Opened? && !f.countError && ActiveCount(f.lines) > 0 && !f.readError ==>
        && rc == num <= ActiveCount(f.lines)
        && Contents() == Numbered(Accepted(f.lines))
        && (forall k | 0 <= k < num :: line[k].index == k && WellFormed(line[k]))
        && fresh(line)
    {
      destroyed := false;
      if f.CannotOpen? {
        num := 0;
        return 0;
      }
      var lines := f.lines;
      num := CountActiveLines(lines, f.countError);
      if num <= 0 {
        num := 0;
        return 0;
      }
      var arr := new Record[num](_ => Zeroed);
      var ix := FillTable(arr, lines);
      if f.readError {
        num := 0;
        return 0;
      }
      AcceptedBound(lines);
      AcceptedWellFormed(lines);
      line, num := arr, ix;
      assert forall k | 0 <= k < num :: line[k] == line[..num][k];
      return num;
    }

    /**
     * `_find_procline`: scan the slots in order for the first record that
     * compares equal to `tgt` under `_cmp_procline`.
     */
    method FindProcLine(tgt: Record) returns (p: Option<nat>)
      requires Valid() && !destroyed
      ensures IsFirstMatch(Contents(), Text(tgt), p)
    {
      var ix := 0;
      while ix < num
        invariant 0 <= ix <= num
        invariant forall j | 0 <= j < ix :: !Matches(line[j], Text(tgt))
      {
        if Cmp(line[ix], tgt) == 0 {
          return Some(ix);
        }
        ix := ix + 1;
      }
      return None;
    }

    /**
     * `get_procline`: parse `str` into a scratch record, look it up, release
     * the scratch record. A string that does not parse finds nothing.
     */
    method GetProcLine(str: string) returns (p: Option<nat>)
      requires Valid() && !destroyed
      ensures ParseLine(str).None? ==> p.None?
      ensures ParseLine(str).Some? ==> IsFirstMatch(Contents(), Text(ParseLine(str).value), p)
    {
      var scratch := new Record[1](_ => Zeroed);
      var rc := ParseInto(scratch, 0, str);
      if rc <= 0 {
        return None;
      }
      p := FindProcLine(scratch[0]);
      DestroyProcLine(scratch, 0);
    }

    /** `get_procline_by_bin`: the first record whose bin_name is `tgt`. */
    method GetProcLineByBin(tgt: string) returns (p: Option<nat>)
      requires Valid() && !destroyed
      requires forall k | 0 <= k < |tgt| :: tgt[k] != '\0'
      ensures IsFirstMatch(Contents(), Bin(tgt), p)
    {
      var ix := 0;
      while ix < num
        invariant 0 <= ix <= num
        invariant forall j | 0 <= j < ix :: !Matches(line[j], Bin(tgt))
      {
        if StrCmp(line[ix].binName, tgt) == 0 {
          return Some(ix);
        }
        ix := ix + 1;
      }
      return None;
    }

    /** `get_procline_by_name`: the first record whose name is `tgt`. */
    method GetProcLineByName(tgt: string) returns (p: Option<nat>)
      requires Valid() && !destroyed
      requires forall k | 0 <= k < |tgt| :: tgt[k] != '\0'
      ensures IsFirstMatch(Contents(), Name(tgt), p)
    {
      var ix := 0;
      while ix < num
        invariant 0 <= ix <= num
        invariant forall j | 0 <= j < ix :: !Matches(line[j], Name(tgt))
      {
        if StrCmp(line[ix].name, tgt) == 0 {
          return Some(ix);
        }
        ix := ix + 1;
      }
      return None;
    }

    /**
     * `destroy_procinfo`: every record of the table is released in place.
     * As in the source, `num` is left as it was and the array is kept; the
     * table is then destroyed. Destroying it again only clears the cleared
     * slots once more, as freeing NULL does nothing.
     */
    method Destroy()
      requires Valid()
      modifies this, line
      ensures Valid() && destroyed
      ensures line == old(line) && num == old(num)
      ensures forall k | 0 <= k < num :: line[k] == Cleared
      ensures forall k | num <= k < line.Length :: line[k] == old(line[k])
    {
      var ix := 0;
      while ix < num
        invariant line == old(line) && num == old(num)
        invariant 0 <= ix <= num
        invariant forall k | 0 <= k < ix :: line[k] == Cleared
        invariant forall k | ix <= k < line.Length :: line[k] == old(line[k])
      {
        DestroyProcLine(line, ix);
        ix := ix + 1;
      }
      destroyed := true;
    }
  }

  /**
   * The parsing pass of `load_procinfo` over a fresh array of `ActiveCount`
   * slots: read lines while there is a free slot, parse each into the next
   * free slot and, on success, give it its position as index and move on.
   * The array ends up holding the numbered records of all lines.
   */
  method FillTable(arr: array<Record>, lines: seq<string>) returns (ix: nat)
    requires arr.Length == ActiveCount(lines)
    modifies arr
    ensures ix <= arr.Length && ix == |Accepted(lines)|
    ensures arr[..ix] == Numbered(Accepted(lines))
  {
    ix := 0;
    var i := 0;
    assert LoadedSoFar(arr, ix, lines, i) by { assert lines[..0] == []; }
    while ix < arr.Length && i < |lines|
      invariant ix <= arr.Length && i <= |lines|
      invariant LoadedSoFar(arr, ix, lines, i)
      decreases |lines| - i
    {
      ix := FillSlot(arr, ix, lines, i);
      i := i + 1;
    }
    FillTableDone(arr, ix, lines, i);
  }

  /** One line of the parsing pass: parse line `i` into slot `ix`. */
  method FillSlot(arr: array<Record>, ix: nat, lines: seq<string>, i: nat) returns (ix': nat)
    requires ix < arr.Length && i < |lines|
    requires LoadedSoFar(arr, ix, lines, i)
    modifies arr
    ensures ix' <= arr.Length && LoadedSoFar(arr, ix', lines, i + 1)
  {
    var rc := ParseInto(arr, ix, lines[i]);
    assert lines[..i + 1][..i] == lines[..i];
    assert arr[..ix] == old(arr[..ix]);
    ix' := ix;
    if rc > 0 {
      arr[ix] := arr[ix].(index := ix);
      NumberedAppend(Accepted(lines[..i]), ParseLine(lines[i]).value);
      assert arr[..ix + 1] == arr[..ix] + [arr[ix]];
      ix' := ix + 1;
    }
  }

  /**
   * The parsing pass stops at the end of the lines or when every slot is
   * used; in the second case no later line is active, so nothing was missed.
   */
  lemma FillTableDone(arr: array<Record>, ix: nat, lines: seq<string>, i: nat)
    requires arr.Length == ActiveCount(lines)
    requires ix <= arr.Length && i <= |lines| && LoadedSoFar(arr, ix, lines, i)
    requires !(ix < arr.Length && i < |lines|)
    ensures ix == |Accepted(lines)| && arr[..ix] == Numbered(Accepted(lines))
  {
    var a, b := lines[..i], lines[i..];
    assert a + b == lines;
    AcceptedAppend(a, b);
    if i < |lines| {
      ActiveCountAppend(a, b);
      AcceptedBound(a);
      NoActiveNoneAccepted(b);
    }
    assert Accepted(lines) == Accepted(a);
  }
}
