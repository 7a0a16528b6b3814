/**
 * Line classification and column scanning of the process registry
 * (`_is_active_line` and `_get_column` in src/procinfo.c).
 *
 * A line is a sequence of characters that may hold a NUL: the scan treats a
 * NUL like the end of the sequence, as C treats the terminator. The columns
 * the scan yields never hold a NUL, so every later operation works on
 * NUL-free text. `isspace` and `isdigit` are those of the C locale.
 */
module Tokenizer {

  /** `isspace` in the C locale: space, \t, \n, \v, \f, \r. */
  predicate IsSpace(c: char)
  {
    c == ' ' || c == '\t' || c == '\n' || c == '\U{B}' || c == '\U{C}' || c == '\r'
  }

  /** `isdigit` in the C locale. */
  predicate IsDigit(c: char)
  {
    '0' <= c <= '9'
  }

  /** A whitespace-free, NUL-free piece of text: what one column can hold. */
  predicate IsToken(t: string)
  {
    forall k | 0 <= k < |t| :: !IsSpace(t[k]) && t[k] != '\0'
  }

  /**
   * `_is_active_line`: a line counts unless it is empty or starts with NUL,
   * '#', CR or LF. So an active line is exactly one the column scan does not
   * find at its end and that does not open with '#'.
   */
  predicate IsActive(s: string): (b: bool)
    ensures b <==> !AtEnd(s) && s[0] != '#'
  {
    !(|s| == 0 || s[0] == '\0' || s[0] == '#' || s[0] == '\r' || s[0] == '\n')
  }

  /** The early exit of `_get_column`: at the end of the line there is no further column. */
  predicate AtEnd(s: string)
  {
    |s| == 0 || s[0] == '\0' || s[0] == '\r' || s[0] == '\n'
  }

  /** The first position at or after `i` that is not whitespace. */
  function SkipSpaces(s: string, i: nat): (j: nat)
    requires i <= |s|
    ensures i <= j <= |s|
    decreases |s| - i
  {
    if i < |s| && IsSpace(s[i]) then SkipSpaces(s, i + 1) else i
  }

  /** The first position at or after `i` that holds whitespace or NUL (or the end). */
  function SkipWord(s: string, i: nat): (j: nat)
    requires i <= |s|
    ensures i <= j <= |s|
    decreases |s| - i
  {
    if i < |s| && !IsSpace(s[i]) && s[i] != '\0' then SkipWord(s, i + 1) else i
  }

  /** `SkipSpaces` passes over whitespace only and stops at the first other character. */
  lemma {:induction false} SkipSpacesStops(s: string, i: nat)
    requires i <= |s|
    ensures forall k | i <= k < SkipSpaces(s, i) :: IsSpace(s[k])
    ensures SkipSpaces(s, i) < |s| ==> !IsSpace(s[SkipSpaces(s, i)])
    decreases |s| - i
  {
    if i < |s| && IsSpace(s[i]) {
      SkipSpacesStops(s, i + 1);
    }
  }

  /** `SkipWord` passes over a token and stops at whitespace, NUL or the end. */
  lemma {:induction false} SkipWordStops(s: string, i: nat)
    requires i <= |s|
    ensures IsToken(s[i..SkipWord(s, i)])
    ensures SkipWord(s, i) < |s| ==> IsSpace(s[SkipWord(s, i)]) || s[SkipWord(s, i)] == '\0'
    decreases |s| - i
  {
    if i < |s| && !IsSpace(s[i]) && s[i] != '\0' {
      SkipWordStops(s, i + 1);
      assert s[i..SkipWord(s, i)] == [s[i]] + s[i + 1..SkipWord(s, i)];
    }
  }

  /** What `_get_column` reports: where the token starts, its length, and how far the scan advanced. */
  datatype Span = Span(start: nat, len: nat, advance: nat)

  /**
   * The column at the head of `s`: nothing at the end of the line, otherwise
   * leading whitespace is skipped and the following maximal run of characters
   * other than whitespace and NUL is the token.
   */
  function Column(s: string): (c: Span)
    ensures c.advance == c.start + c.len <= |s|
  {
    if AtEnd(s) then Span(0, 0, 0)
    else
      var start := SkipSpaces(s, 0);
      var stop := SkipWord(s, start);
      Span(start, stop - start, stop)
  }

  /**
   * What a column is: the scan advances past the token and nothing more; it
   * advances not at all exactly at the end of the line; before the token
   * there is only whitespace, the token holds none, and it is followed by
   * whitespace, NUL or the end.
   */
  lemma ColumnFacts(s: string)
    ensures Column(s).advance == 0 <==> AtEnd(s)
    ensures AtEnd(s) ==> Column(s) == Span(0, 0, 0)
    ensures !AtEnd(s) ==> forall k | 0 <= k < Column(s).start :: IsSpace(s[k])
    ensures !AtEnd(s) && Column(s).start < |s| ==> !IsSpace(s[Column(s).start])
    ensures IsToken(s[Column(s).start..Column(s).advance])
    ensures Column(s).advance < |s| ==> IsSpace(s[Column(s).advance]) || s[Column(s).advance] == '\0'
  {
    if !AtEnd(s) {
      SkipSpacesStops(s, 0);
      SkipWordStops(s, SkipSpaces(s, 0));
    }
  }

  /**
   * A line is active exactly when the first column scan gets past its first
   * character and that character is not `#`. A leading blank or tab keeps a
   * line active, even when the first token starts with `#`; a leading CR or
   * LF does not.
   */
  lemma ActiveLine(s: string)
    ensures IsActive(s) <==> Column(s).advance > 0 && s[0] != '#'
    ensures |s| > 0 && (s[0] == ' ' || s[0] == '\t') ==> IsActive(s)
  {
    ColumnFacts(s);
  }

  /** The text of the column at the head of `s`. */
  function ColumnText(s: string): string
  {
    var c := Column(s); s[c.start..c.advance]
  }

  /** The first `n` columns of `s`, each scan resuming where the previous one stopped. */
  function Columns(s: string, n: nat): (cols: seq<string>)
    ensures |cols| == n
    decreases n, |s|
  {
    if n == 0 then []
    else [ColumnText(s)] + Columns(s[Column(s).advance..], n - 1)
  }

  /**
   * `_get_column`: stop at once at the end of the line; otherwise skip the
   * leading whitespace, then scan the token up to the next whitespace, NUL or
   * the end of the string, and report its start, its length and the advance.
   */
  method GetColumn(s: string) returns (start: nat, len: nat, advance: nat)
    ensures Span(start, len, advance) == Column(s)
  {
    if |s| == 0 || s[0] == '\0' || s[0] == '\r' || s[0] == '\n' {
      return 0, 0, 0;
    }
    var ix := 0;
    while ix < |s| && IsSpace(s[ix])
      invariant ix <= |s|
      invariant SkipSpaces(s, ix) == SkipSpaces(s, 0)
    {
      ix := ix + 1;
    }
    start := ix;
    while ix < |s| && !IsSpace(s[ix]) && s[ix] != '\0'
      invariant start <= ix <= |s|
      invariant SkipWord(s, ix) == SkipWord(s, start)
    {
      ix := ix + 1;
    }
    len := ix - start;
    advance := ix;
  }

  /** Every column is whitespace-free and NUL-free. */
  lemma {:induction false} ColumnsAreTokens(s: string, n: nat)
    ensures forall k | 0 <= k < n :: IsToken(Columns(s, n)[k])
    decreases n
  {
    if n > 0 {
      var rest := s[Column(s).advance..];
      ColumnFacts(s);
      ColumnsAreTokens(rest, n - 1);
      assert Columns(s, n) == [ColumnText(s)] + Columns(rest, n - 1);
    }
  }

  /** Once the scan reaches the end of the line, every further column is empty. */
  lemma {:induction false} ColumnsAtEnd(s: string, n: nat)
    requires AtEnd(s)
    ensures forall k | 0 <= k < n :: Columns(s, n)[k] == []
    decreases n
  {
    if n > 0 {
      ColumnFacts(s);
      assert s[Column(s).advance..] == s;
      ColumnsAtEnd(s, n - 1);
    }
  }

  /** An empty column is never followed by a non-empty one. */
  lemma {:induction false} EmptyColumnIsFinal(s: string, n: nat, k: nat, j: nat)
    requires k <= j < n
    requires Columns(s, n)[k] == []
    ensures Columns(s, n)[j] == []
    decreases n
  {
    var c := Column(s);
    var rest := s[c.advance..];
    ColumnFacts(s);
    if k == 0 {
      // the token is empty, so the scan stopped at the end of the line
      assert AtEnd(rest);
      ColumnsAtEnd(rest, n - 1);
      if j > 0 {
        assert Columns(s, n)[j] == Columns(rest, n - 1)[j - 1];
      }
    } else {
      assert Columns(s, n)[k] == Columns(rest, n - 1)[k - 1];
      EmptyColumnIsFinal(rest, n - 1, k - 1, j - 1);
    }
  }

  /**
   * The column of a string whose first `a` characters are whitespace,
   * followed by a token ending at `b`, followed by whitespace, NUL or the end,
   * is exactly that token (an empty token only at the end of the string).
   */
  lemma ColumnAt(s: string, a: nat, b: nat)
    requires a <= b <= |s|
    requires 0 < a || a < b
    requires forall k | 0 <= k < a :: s[k] == ' '
    requires forall k | a <= k < b :: !IsSpace(s[k]) && s[k] != '\0'
    requires b < |s| ==> a < b && (IsSpace(s[b]) || s[b] == '\0')
    ensures Column(s) == Span(a, b - a, b)
  {
    assert !AtEnd(s) by {
      if a > 0 { assert s[0] == ' '; } else { assert !IsSpace(s[0]) && s[0] != '\0'; }
    }
    assert forall k | 0 <= k < a :: IsSpace(s[k]);
    assert a < |s| ==> a < b;
    assert a < b ==> !IsSpace(s[a]);
    SkipSpacesStops(s, 0);
    assert SkipSpaces(s, 0) == a;
    SkipWordStops(s, a);
    var stop := SkipWord(s, a);
    assert forall k | a <= k < stop :: s[a..stop][k - a] == s[k];
  }

  /**
   * The line `" " + fs[0] + " " + fs[1] + ... + post`: each token preceded by
   * a single blank, then `post`.
   */
  function SpacedThen(fs: seq<string>, post: string): string
  {
    if fs == [] then post else [' '] + (fs[0] + SpacedThen(fs[1..], post))
  }

  /** Whether `post` may follow a token without joining it: it is empty or starts with whitespace or NUL. */
  predicate Separated(post: string)
  {
    post == [] || IsSpace(post[0]) || post[0] == '\0'
  }

  /**
   * Whether `fs` can be laid out by `SpacedThen(fs, post)` and read back:
   * every part is a token, and a part may be empty only when it is the last
   * one and nothing follows it.
   */
  predicate SpacedOk(fs: seq<string>, post: string)
  {
    fs == [] ||
    (IsToken(fs[0]) && (fs[0] == [] ==> |fs| == 1 && post == []) && SpacedOk(fs[1..], post))
  }

  /**
   * Splitting a line made of single-blank-separated tokens gives back the
   * tokens; the columns after them are those of whatever follows. Only the
   * last token may be empty, and only when nothing follows it.
   */
  lemma {:induction false} ColumnsOfSpaced(fs: seq<string>, post: string, m: nat)
    requires SpacedOk(fs, post) && Separated(post)
    ensures Columns(SpacedThen(fs, post), |fs| + m) == fs + Columns(post, m)
    decreases |fs|
  {
    if fs == [] {
      assert fs + Columns(post, m) == Columns(post, m);
    } else {
      var rest := fs[1..];
      var n := |rest| + m;
      SpacedHead(fs, post, n + 1);
      ColumnsOfSpaced(rest, post, m);
      Regroup(fs, Columns(post, m));
    }
  }

  /**
   * A line made of a non-empty token and then single-blank-separated tokens
   * reads back as those tokens, followed by the columns of whatever comes
   * after them.
   */
  lemma ColumnsOfLine(t: string, fs: seq<string>, post: string, m: nat)
    requires IsToken(t) && |t| > 0
    requires SpacedOk(fs, post) && Separated(post)
    ensures Columns(t + SpacedThen(fs, post), 1 + |fs| + m) == [t] + (fs + Columns(post, m))
  {
    var tail := SpacedThen(fs, post);
    var s := t + tail;
    assert Separated(tail) by {
      if fs != [] { assert tail[0] == ' '; }
    }
    assert forall k | 0 <= k < |t| :: s[k] == t[k];
    assert |t| < |s| ==> s[|t|] == tail[0];
    ColumnAt(s, 0, |t|);
    assert s[0..|t|] == t;
    assert s[|t|..] == tail;
    ColumnsOfSpaced(fs, post, m);
  }

  /** One step of `ColumnsOfSpaced`: the first column of a spaced line is its first token. */
  lemma SpacedHead(fs: seq<string>, post: string, n: nat)
    requires fs != [] && n > 0
    requires SpacedOk(fs, post) && Separated(post)
    ensures Columns(SpacedThen(fs, post), n) == [fs[0]] + Columns(SpacedThen(fs[1..], post), n - 1)
  {
    var t, tail := fs[0], SpacedThen(fs[1..], post);
    var s := SpacedThen(fs, post);
    assert s == [' '] + (t + tail);
    assert Separated(tail) by {
      if fs[1..] != [] { assert tail[0] == ' '; }
    }
    assert forall k | 1 <= k < 1 + |t| :: s[k] == t[k - 1];
    assert 1 + |t| < |s| ==> s[1 + |t|] == tail[0];
    ColumnAt(s, 1, 1 + |t|);
    assert s[1..1 + |t|] == t;
    assert s[1 + |t|..] == tail;
  }

  lemma Regroup<T>(fs: seq<T>, tail: seq<T>)
    requires fs != []
    ensures [fs[0]] + (fs[1..] + tail) == fs + tail
  {
  }
}
