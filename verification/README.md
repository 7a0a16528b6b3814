# Process registry loader (procinfo) in Dafny

This project models `src/procinfo.c`, the loader and lookup table for a
process registry file. Each active line of the file names one managed process
in six whitespace-separated columns: name, server, io port, cmd port, binary
name and attribute. Lines that are empty or start with NUL, `#`, CR or LF do
not count.

The model has five modules:

- `Wrappers` defines `Option`. It stands in for a pointer that may be NULL.
- `Tokenizer` covers line classification (`_is_active_line`) and column
  scanning (`_get_column`).
  - `Column` and `Columns` say, as functions, what the scan yields.
  - `GetColumn` is the scanning loop, proved against `Column`.
  - The lemmas show what a column is, and that text made of
    single-blank-separated tokens reads back as those tokens.
- `ProcLine` covers the record (`procline_t`) and the field validators
  (`_is_not_null_or_empty`, `_validate_port`).
  - It also covers the all-or-nothing record builder `_parse_procinfo_line`.
    `ParseLine` states its result as a value. `ParseInto` and `CopyColumns`
    are its column loop, written over an array slot.
  - `_destroy_procline` is `DestroyProcLine`.
- `ProcLineText` covers the field-by-field comparison `_cmp_procline` and the
  printed form `get_procline_str`. It proves the printing round trip for
  records whose six fields are tokens and whose name does not start with
  `#`: parse the printed line and you get back a record that compares equal.
  Every record the parser builds has token fields. A name can start with `#`
  when its line opens with a blank, and such a record prints as a comment.
- `ProcInfo` is the table. `Table` is a class holding the array `line` and
  the count `num`.
  - `Load` is `load_procinfo`, fed a model of the file.
  - `FindProcLine`, `GetProcLine`, `GetProcLineByBin` and `GetProcLineByName`
    are the first-match lookups. Each is proved against `IsFirstMatch`, a
    "least matching index" specification.
  - `Destroy` is `destroy_procinfo`.

Some representation choices:

- A line is a sequence of characters that may hold a NUL. The column scan
  (`IsActive`, `AtEnd`, `SkipWord`) treats a NUL like the end of the line, as
  C treats the terminator.
- Every other string is NUL-free text. The record's text fields are
  columns, which never hold a NUL. The keys of `GetProcLineByBin` and
  `GetProcLineByName` are required to be NUL-free, as `strcmp` would stop
  at a NUL. `IsPort`, `StrCmp` and `Format` therefore treat every
  character as ordinary.
- A pointer into the table is a slot index (`Option<nat>`).
- A NULL text field is the empty string.
- `isspace` and `isdigit` are the C-locale (ASCII) sets.
- A character stands for one byte: the registry text is taken to be ASCII,
  so a string's length is its length in bytes, as `sprintf` counts it.

## Model

| member | source | states |
|---|---|---|
| Tokenizer.IsActive | src/procinfo.c:298-305 | `_is_active_line` holds exactly when the column scan is not at the end of the line (empty, NUL, CR, LF) and the line does not open with `#` |
| Tokenizer.ActiveLine | src/procinfo.c:298-305 | a line is active exactly when the column scan gets past its first character and that character is not `#`; a leading blank or tab keeps a line active |
| Tokenizer.SkipSpacesStops | src/procinfo.c:336 | the first scan loop passes over whitespace only and stops at the first other character |
| Tokenizer.SkipWordStops | src/procinfo.c:337 | the second scan loop passes over a whitespace-free, NUL-free token and stops at whitespace, NUL or the end |
| Tokenizer.Column | src/procinfo.c:326-340 | the column found at the head of a string ends where the scan resumes: the advance is start + length, within the string |
| Tokenizer.Columns | src/procinfo.c:211-212 | the column loop reads exactly the requested number of columns, each scan resuming at the previous advance |
| Tokenizer.ColumnFacts | src/procinfo.c:326-340 | the scan advances 0 exactly at the end of the line (empty, NUL, CR, LF), and then start and length are 0; otherwise only whitespace precedes the token, the token has no whitespace and is followed by whitespace, NUL or the end; the advance is start + length |
| Tokenizer.GetColumn | src/procinfo.c:326-340 | the two scanning loops compute exactly the start, length and advance of `Column` |
| Tokenizer.ColumnsAreTokens | src/procinfo.c:211-212 | every column the parser reads is whitespace-free and NUL-free |
| Tokenizer.ColumnsAtEnd | src/procinfo.c:330-334 | once the scan is at the end of the line, every further column is empty |
| Tokenizer.EmptyColumnIsFinal | src/procinfo.c:211-212 | an empty column is only followed by empty columns |
| Tokenizer.ColumnAt | src/procinfo.c:326-340 | a string of blanks, then a token, then whitespace, NUL or the end, scans as exactly that token |
| Tokenizer.ColumnsOfSpaced | src/procinfo.c:211-212 | tokens joined by single blanks read back as those tokens, followed by the columns of what comes after |
| Tokenizer.ColumnsOfLine | src/procinfo.c:211-212 | a non-empty first token followed by blank-joined tokens reads back as all of them |
| ProcLine.SetField | src/procinfo.c:213-248 | storing column `k` changes only the field chosen for that column |
| ProcLine.ValidatePort | src/procinfo.c:347-362 | `_validate_port` accepts exactly the non-empty strings of decimal digits |
| ProcLine.RunCheck | src/procinfo.c:246-248 | the column's validator passes exactly when its check holds; attr has no validator |
| ProcLine.DecimalValue | src/procinfo.c:251-252 | `strtol` base 10 of a digit string: a string of n digits reads as a value below 10^n, and the empty string as 0 |
| ProcLine.ParseLine | src/procinfo.c:191-259 | a line yields a record only when it is active; that record is valid, has index 0, non-empty name, svr and bin_name, and digit-string ports |
| ProcLine.ParseLineSound | src/procinfo.c:205-258 | a line yields a record exactly when it is active, name, svr and bin_name are non-empty and both ports are digit strings; attr is unchecked; the record holds the six columns in order, is valid, has index 0 and has ports equal to the base-10 values of their digit strings |
| ProcLine.NextColumn | src/procinfo.c:211-246 | reading the column at offset `jx` yields the next column and leaves the remaining ones at `jx + ret` |
| ProcLine.ReadColumn | src/procinfo.c:211-248 | one `_get_column` call plus the copy of `len` characters from `str[jx + start]` gives the next column text |
| ProcLine.FilledAll | src/procinfo.c:251-253 | after six copied and checked columns, parsing the ports and setting `valid` gives the parsed record |
| ProcLine.FailedCheck | src/procinfo.c:246-258 | a column that fails its check makes the whole line fail |
| ProcLine.CopyColumn | src/procinfo.c:210-250 | one turn of the column loop copies column `col` into its field, runs its check and touches no other slot |
| ProcLine.CopyColumns | src/procinfo.c:209-258 | after the slot is cleared, the column loop leaves the parsed record and returns 1, or clears the whole slot and returns 0 at the first failing column |
| ProcLine.ParseInto | src/procinfo.c:191-259 | an inactive line returns 0 and leaves the slot as it was; an active line that does not parse returns 0 and leaves the slot cleared; a line that parses returns 1 with its record in the slot; other slots are untouched |
| ProcLine.DestroyProcLine | src/procinfo.c:364-381 | the slot loses its text, gets index and ports -1 and becomes invalid; other slots are untouched |
| ProcLineText.StrCmp | src/procinfo.c:265 | the sign of `strcmp` is -1, 0 or 1 |
| ProcLineText.StrCmpZeroIff | src/procinfo.c:265 | `strcmp` is 0 exactly for equal strings |
| ProcLineText.StrCmpAntisym | src/procinfo.c:265 | swapping the arguments of `strcmp` flips the sign |
| ProcLineText.StrCmpFirstDifference | src/procinfo.c:265 | `strcmp` is decided by the first differing character |
| ProcLineText.StrCmpPrefix | src/procinfo.c:265 | a proper prefix compares below the longer string |
| ProcLineText.Cmp | src/procinfo.c:261-296 | `_cmp_procline` yields the sign -1, 0 or 1 |
| ProcLineText.CmpZeroIff | src/procinfo.c:261-296 | `_cmp_procline` is 0 exactly when all six text fields are equal; index, valid flag and numeric ports are ignored |
| ProcLineText.CmpAntisym | src/procinfo.c:261-296 | swapping the records flips the sign of `_cmp_procline` |
| ProcLineText.CmpFirstDifference | src/procinfo.c:261-296 | `_cmp_procline` is the non-zero `strcmp` of the first differing field, in the order name, svr, ioport_str, cmdport_str, bin_name, attr |
| ProcLineText.Format | src/procinfo.c:116-121 | the printed line is as long as the six fields plus five blanks, which is what `sprintf` returns |
| ProcLineText.JoinedSpaced | src/procinfo.c:116-121 | text laid out as `"%s %s ..."` is the first string followed by each further field after a single blank, which is how the column scan reads it |
| ProcLineText.FormatSpaced | src/procinfo.c:116-121 | the printed line is the name followed by the other five fields, each after a single blank |
| ProcLineText.FormatColumns | src/procinfo.c:116-121 | for a record whose six fields are tokens (name, svr and bin_name non-empty, ports digit strings), the six columns of its printed line, followed by nothing, a newline, a NUL or more blank-separated text, are its six fields, provided that nothing follows the line when attr is empty |
| ProcLineText.FormatParse | src/procinfo.c:116-121 | the printed line of a record with parseable fields parses back to a record with the same text, provided the name does not start with `#` and an empty attr ends the line; a fully built record comes back as itself, up to its index |
| ProcLineText.FormatRoundTrip | src/procinfo.c:108-123 | a record whose six fields are tokens (name, svr and bin_name non-empty, ports digit strings) and whose name does not start with `#` prints to a line that parses back to a record equal to it under `_cmp_procline` |
| ProcLineText.ParseFiveColumns | src/procinfo.c:234-246 | a line that ends right after its fifth field is accepted with an empty attr, because attr has no validator |
| ProcInfo.ActiveCount | src/procinfo.c:311-315 | the active lines of a file are at most all of its lines |
| ProcInfo.Accepted | src/procinfo.c:60-65 | the parsing pass keeps at most one record per line, each valid and with index 0 before numbering |
| ProcInfo.CountActiveLines | src/procinfo.c:307-324 | `_get_filep_line_num` returns the number of active lines, or -1 on a read error |
| ProcInfo.ActiveCountAppend | src/procinfo.c:311-315 | the active lines of two consecutive stretches of the file add up |
| ProcInfo.AcceptedAppend | src/procinfo.c:60-65 | the records of two consecutive stretches of the file follow each other |
| ProcInfo.AcceptedBound | src/procinfo.c:60-65 | the table never holds more records than the file has active lines |
| ProcInfo.AcceptedWellFormed | src/procinfo.c:60-65 | every accepted record is valid and well formed |
| ProcInfo.AcceptedAll | src/procinfo.c:60-65 | there are as many records as active lines exactly when every active line parses |
| ProcInfo.NoActiveNoneAccepted | src/procinfo.c:60-65 | lines none of which is active contribute no record |
| ProcInfo.NumberedAppend | src/procinfo.c:62-63 | numbering one more record keeps the earlier numbers |
| ProcInfo.FillSlot | src/procinfo.c:61-64 | one line of the parsing pass appends its record, numbered with its slot, exactly when the line parses |
| ProcInfo.FillTableDone | src/procinfo.c:60 | stopping when every slot is used misses no record, since no active line remains |
| ProcInfo.FillTable | src/procinfo.c:59-65 | the parsing pass leaves the accepted records, in file order and each numbered with its position, at the front of the array |
| ProcInfo.Table.constructor | src/procinfo.c:33 | a table before loading holds no record and is not destroyed |
| ProcInfo.Table.Load | src/procinfo.c:33-87 | on success the table holds exactly the accepted records in file order, with `index == k` in slot `k`, all valid and well formed, and returns their number, which is at most the number of active lines; it returns 0 with `num` 0 when the file cannot be opened, on a read error in either pass, or when no line is active |
| ProcInfo.MatchesIff | src/procinfo.c:134-183 | a record matches a key exactly when the compared fields are equal: all six text fields, the bin_name or the name |
| ProcInfo.Table.FindProcLine | src/procinfo.c:174-189 | the result is the lowest slot whose record compares equal to the key record, or None if there is none |
| ProcInfo.Table.GetProcLine | src/procinfo.c:89-106 | a key string that does not parse finds nothing; otherwise the result is the lowest slot whose record has the same six text fields as the parsed key |
| ProcInfo.Table.GetProcLineByBin | src/procinfo.c:125-140 | the result is the lowest slot whose bin_name equals the NUL-free key, or None |
| ProcInfo.Table.GetProcLineByName | src/procinfo.c:142-157 | the result is the lowest slot whose name equals the NUL-free key, or None |
| ProcInfo.Table.Destroy | src/procinfo.c:159-172 | every record of the table is cleared in place, `num` and the array are kept, slots past `num` are untouched, and the table is marked destroyed |

## Left out

- File I/O is not modelled: `fopen`, `fgets`, `rewind`, `ferror` and `fclose`. The file is the `Source` value instead.
  - `CannotOpen` stands for a file that cannot be opened.
  - `Opened` holds the strings `fgets` returns, which are the same on both passes.
  - Its two flags say whether `ferror` is set after the counting pass and after the parsing pass.
  - A file that changes between the two passes is not modelled.
- The splitting of lines longer than the 1024-byte buffer into several `fgets` results is not modelled. Each element of `lines` is already one `fgets` result.
- Allocation is not modelled. That covers `malloc` failure (in `load_procinfo` and for each column copy) and every `free`.
- NULL arguments are not modelled. Dafny values are never null, so the early `-1`/`NULL`/no-op returns for them are left out.
- Text fields that are NULL after `memset` or `_destroy_procline` are the empty string here. `strcmp` on such a field is undefined in C. The lookups therefore require a table that has not been destroyed (`Table.destroyed`, set by `Destroy` and cleared by `Load`).
- `nax_is_null_or_empty` comes from `str_util.h`, which is not part of this model. `_is_not_null_or_empty` is a length test: the text is a token, so it is never NULL.
- `strtol` overflow and the width of `int` are not modelled. Ports are unbounded naturals (`DecimalValue`).
- `isspace` and `isdigit` are fixed to the C locale. Other locales are not modelled.
- `sprintf` buffer sizing in `get_procline_str` is not modelled. `Format` is the text written, and its length is the return value when every character is one byte. Multi-byte text is not modelled.
- ProcLineText.StrCmp: models only the sign of `strcmp`, as -1, 0 or 1, comparing characters by code point. The C result may be any negative or positive value.
- ProcLineText.Cmp: returns the sign of the deciding `strcmp`, for the same reason.
- `_get_column` as written does not stop at NUL in its second loop (src/procinfo.c:337). A last token not followed by whitespace would read past the terminator. The model stops the token at NUL or at the end of the string.
- `load_procinfo` as written never stores the allocated array into `dest->line` (src/procinfo.c:54, 72-77). The records it builds are then unreachable. `Table.Load` stores the array on success, as the function's purpose and its callers require.
- `destroy_procinfo` is modelled as written: it clears each record in place. It neither frees the array nor resets `num`. After it, only `Load` and `Destroy` may be called on the table; the lookups require that it is not destroyed.
- src/procinfo.h declares the API of a different revision, with index-returning lookups and `load_procinfo(procinfo_t **, ...)`. None of it is implemented in src/procinfo.c. The header is used only for the record's field list.
- The model follows the code on two points about the attribute column:
  - A line with only five tokens is accepted, with an empty attr.
  - Tokens after the sixth column are ignored. They are not joined into the attribute.
