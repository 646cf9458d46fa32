/**
 The recogniser of Git's NUL-separated porcelain status, against a printer of status entries.
 A byte is a character below 256; whether a byte string is valid UTF-8 is a parameter.
 */
module Porcelain {
  import opened Options
  import opened PathText

  const NUL: char := '\0'
  const TOOL_STDOUT_LIMIT_BYTES := 8 * 1024 * 1024
  const GIT_FIELD_LIMIT_BYTES := 4096
  const STATUS_RECORD_MIN_BYTES := 4

  type Utf8 = string -> bool

  // ------------------------------------------------------------------- entries

  predicate IsControl(c: char) {
    c < ' ' || c == '\U{7f}'
  }

  /** The path check; every test on decoded characters is one on ASCII bytes. */
  predicate ValidPath(utf8: Utf8, raw: string) {
    && utf8(raw) && raw != "" && |raw| <= GIT_FIELD_LIMIT_BYTES
    && raw[0] != '/' && raw[|raw| - 1] != '/' && '\\' !in raw
    && (forall k | 0 <= k < |raw| :: !IsControl(raw[k]))
    && (forall k | 0 <= k < |Split(raw)| :: Clean(Split(raw)[k]))
  }

  /** One status entry: two code letters, a path, and for a rename or copy the second path. */
  datatype Entry = Entry(x: char, y: char, path: string, source: Option<string>)

  predicate ValidCode(x: char, y: char) {
    || (x == '?' && y == '?')
    || (!(x == ' ' && y == ' ') && x in " MADRCU" && y in " MADRCU")
  }

  predicate Moves(x: char, y: char) {
    x in "RC" || y in "RC"
  }

  predicate ValidEntry(utf8: Utf8, e: Entry) {
    && ValidCode(e.x, e.y) && ValidPath(utf8, e.path)
    && (e.source.Some? <==> Moves(e.x, e.y))
    && (e.source.Some? ==> ValidPath(utf8, e.source.value))
  }

  predicate AllValid(utf8: Utf8, entries: seq<Entry>) {
    forall k | 0 <= k < |entries| :: ValidEntry(utf8, entries[k])
  }

  // ----------------------------------------------------------------- printing

  function Record(e: Entry): string {
    [e.x, e.y, ' '] + e.path
  }

  function FieldsOf(e: Entry): seq<string> {
    [Record(e)] + if e.source.Some? then [e.source.value] else []
  }

  function Fields(entries: seq<Entry>): seq<string> {
    if entries == [] then [] else FieldsOf(entries[0]) + Fields(entries[1..])
  }

  /** Every field followed by a NUL. */
  function Terminated(fields: seq<string>): string {
    if fields == [] then "" else fields[0] + [NUL] + Terminated(fields[1..])
  }

  function Print(entries: seq<Entry>): string {
    Terminated(Fields(entries))
  }

  // ------------------------------------------------- splitting what was printed

  /** `text.split(b"\0")`. */
  function SplitNul(text: string): (fields: seq<string>)
    ensures |fields| > 0
  {
    if text == "" then [""]
    else
      var rest := SplitNul(text[1..]);
      if text[0] == NUL then [""] + rest else [[text[0]] + rest[0]] + rest[1..]
  }

  predicate NulFree(fields: seq<string>) {
    forall k | 0 <= k < |fields| :: NUL !in fields[k]
  }

  lemma {:induction false} TerminatedSplit(text: string)
    ensures Terminated(SplitNul(text)) == text + [NUL]
  {
    if text == "" {
      assert [""][1..] == [];
    } else {
      var rest := SplitNul(text[1..]);
      TerminatedSplit(text[1..]);
      if text[0] == NUL {
        assert ([""] + rest)[1..] == rest;
        assert [] + [NUL] + (text[1..] + [NUL]) == text + [NUL];
      } else {
        var fields := [[text[0]] + rest[0]] + rest[1..];
        assert fields[1..] == rest[1..];
        assert [text[0]] + rest[0] + [NUL] + Terminated(rest[1..])
                 == [text[0]] + (rest[0] + [NUL] + Terminated(rest[1..]));
        assert [text[0]] + (text[1..] + [NUL]) == text + [NUL];
      }
    }
  }

  lemma {:induction false} SplitFirst(field: string, rest: string)
    requires NUL !in field
    ensures SplitNul(field + [NUL] + rest) == [field] + SplitNul(rest)
  {
    var text := field + [NUL] + rest;
    if field == "" {
      assert text[1..] == rest;
    } else {
      assert text[0] == field[0] && field[0] in field;
      assert text[1..] == field[1..] + [NUL] + rest;
      SplitFirst(field[1..], rest);
      assert ([field[1..]] + SplitNul(rest))[1..] == SplitNul(rest);
      assert [field[0]] + field[1..] == field;
    }
  }

  lemma {:induction false} SplitLast(field: string)
    requires NUL !in field
    ensures SplitNul(field) == [field]
  {
    if field != "" {
      SplitLast(field[1..]);
      assert [field[0]] + field[1..] == field;
    }
  }

  /** Fields without a NUL are recovered from the terminated text without its last byte. */
  lemma {:induction false} SplitTerminated(fields: seq<string>)
    requires fields != [] && NulFree(fields)
    ensures var text := Terminated(fields);
            text != "" && text[|text| - 1] == NUL && SplitNul(text[..|text| - 1]) == fields
  {
    var text := Terminated(fields);
    if |fields| == 1 {
      assert Terminated(fields[1..]) == "";
      assert text == fields[0] + [NUL] && text[..|text| - 1] == fields[0];
      SplitLast(fields[0]);
    } else {
      var rest := Terminated(fields[1..]);
      SplitTerminated(fields[1..]);
      assert text[..|text| - 1] == fields[0] + [NUL] + rest[..|rest| - 1];
      SplitFirst(fields[0], rest[..|rest| - 1]);
      assert [fields[0]] + fields[1..] == fields;
    }
  }

  // ------------------------------------------------------------- reading fields

  predicate ValidRecord(utf8: Utf8, record: string) {
    && |record| >= STATUS_RECORD_MIN_BYTES && record[2] == ' '
    && ValidCode(record[0], record[1]) && ValidPath(utf8, record[3..])
  }

  /** The entries a list of fields spells, if any. */
  ghost function Read(utf8: Utf8, fields: seq<string>): Option<seq<Entry>>
    decreases |fields|
  {
    if fields == [] then Some([])
    else if !ValidRecord(utf8, fields[0]) then None
    else
      var x, y, path := fields[0][0], fields[0][1], fields[0][3..];
      if !Moves(x, y) then Prepend(Entry(x, y, path, None), Read(utf8, fields[1..]))
      else if |fields| < 2 || !ValidPath(utf8, fields[1]) then None
      else Prepend(Entry(x, y, path, Some(fields[1])), Read(utf8, fields[2..]))
  }

  function Prepend(e: Entry, rest: Option<seq<Entry>>): Option<seq<Entry>> {
    if rest.Some? then Some([e] + rest.value) else None
  }

  lemma {:induction false} ReadIsSound(utf8: Utf8, fields: seq<string>)
    requires Read(utf8, fields).Some?
    ensures AllValid(utf8, Read(utf8, fields).value) && Fields(Read(utf8, fields).value) == fields
    decreases |fields|
  {
    hide ValidPath;
    hide ValidCode;
    hide Moves;
    if fields != [] {
      var x, y, path := fields[0][0], fields[0][1], fields[0][3..];
      var n := if Moves(x, y) then 2 else 1;
      var e := Entry(x, y, path, if Moves(x, y) then Some(fields[1]) else None);
      ReadIsSound(utf8, fields[n..]);
      var rest := Read(utf8, fields[n..]).value;
      assert Record(e) == fields[0];
      assert ([e] + rest)[1..] == rest;
      assert FieldsOf(e) + fields[n..] == fields;
    }
  }

  lemma {:induction false} ReadIsComplete(utf8: Utf8, entries: seq<Entry>)
    requires AllValid(utf8, entries)
    ensures Read(utf8, Fields(entries)) == Some(entries)
  {
    if entries != [] {
      var e, rest := entries[0], Fields(entries[1..]);
      assert ValidEntry(utf8, e);
      ReadIsComplete(utf8, entries[1..]);
      assert e.path != "" by { assert ValidPath(utf8, e.path); }
      hide ValidPath;
      var record := Record(e);
      assert record[0] == e.x && record[1] == e.y && record[2] == ' ' && record[3..] == e.path;
      assert (FieldsOf(e) + rest)[|FieldsOf(e)|..] == rest && (FieldsOf(e) + rest)[0] == record;
      if e.source.Some? { assert (FieldsOf(e) + rest)[1] == e.source.value; }
      assert [e] + entries[1..] == entries;
    }
  }

  lemma ValidPathHasNoNul(utf8: Utf8, raw: string)
    requires ValidPath(utf8, raw)
    ensures NUL !in raw
  {
    forall k | 0 <= k < |raw| ensures raw[k] != NUL { assert !IsControl(raw[k]); }
  }

  lemma {:induction false} FieldsAreNulFree(utf8: Utf8, entries: seq<Entry>)
    requires AllValid(utf8, entries)
    ensures NulFree(Fields(entries)) && (entries != [] ==> Fields(entries) != [])
  {
    if entries != [] {
      var e := entries[0];
      assert ValidEntry(utf8, e);
      ValidPathHasNoNul(utf8, e.path);
      if e.source.Some? { ValidPathHasNoNul(utf8, e.source.value); }
      FieldsAreNulFree(utf8, entries[1..]);
      assert NUL !in Record(e);
    }
  }

  // --------------------------------------------------------------- the theorems

  ghost predicate Prints(utf8: Utf8, payload: string, entries: seq<Entry>) {
    AllValid(utf8, entries) && Print(entries) == payload
  }

  lemma PrintedReads(utf8: Utf8, payload: string, entries: seq<Entry>)
    requires Prints(utf8, payload, entries) && payload != ""
    ensures payload[|payload| - 1] == NUL && Read(utf8, SplitNul(payload[..|payload| - 1])) == Some(entries)
  {
    assert entries != [];
    hide ValidEntry;
    hide SplitNul;
    hide Read;
    hide Fields;
    hide Terminated;
    FieldsAreNulFree(utf8, entries);
    SplitTerminated(Fields(entries));
    ReadIsComplete(utf8, entries);
  }

  lemma EmptyPrint(utf8: Utf8, entries: seq<Entry>)
    requires AllValid(utf8, entries)
    ensures Print(entries) == "" <==> entries == []
  {
    FieldsAreNulFree(utf8, entries);
    if entries != [] { SplitTerminated(Fields(entries)); }
  }

  /** Entry lists are recovered from their printed form, so printing loses nothing. */
  lemma PrintIsInjective(utf8: Utf8, a: seq<Entry>, b: seq<Entry>)
    requires AllValid(utf8, a) && AllValid(utf8, b) && Print(a) == Print(b)
    ensures a == b
  {
    EmptyPrint(utf8, a);
    EmptyPrint(utf8, b);
    hide AllValid;
    hide Print;
    if a != [] {
      PrintedReads(utf8, Print(a), a);
      PrintedReads(utf8, Print(a), b);
    }
  }

  lemma ReadPrints(utf8: Utf8, payload: string)
    requires payload != "" && payload[|payload| - 1] == NUL && Read(utf8, SplitNul(payload[..|payload| - 1])).Some?
    ensures Prints(utf8, payload, Read(utf8, SplitNul(payload[..|payload| - 1])).value)
  {
    var text := payload[..|payload| - 1];
    ReadIsSound(utf8, SplitNul(text));
    TerminatedSplit(text);
    assert text + [NUL] == payload;
  }

  /**
   The recogniser accepts exactly the printed forms of lists of valid entries within the size
   limit, and reports a clean worktree exactly for the empty list.
   */
  method ParsePorcelainStatus(utf8: Utf8, payload: string) returns (r: Checked<bool>)
    ensures r.Ok? <==> |payload| <= TOOL_STDOUT_LIMIT_BYTES && exists entries :: Prints(utf8, payload, entries)
    ensures r.Ok? ==> forall entries | Prints(utf8, payload, entries) :: r.value <==> entries == []
  {
    if |payload| > TOOL_STDOUT_LIMIT_BYTES { return Raised; }
    if payload == "" {
      assert Prints(utf8, payload, []);
      forall entries | Prints(utf8, payload, entries) ensures entries == [] { PrintIsInjective(utf8, entries, []); }
      return Ok(true);
    }
    forall entries | Prints(utf8, payload, entries)
      ensures payload[|payload| - 1] == NUL && Read(utf8, SplitNul(payload[..|payload| - 1])).Some? && entries != []
    {
      PrintedReads(utf8, payload, entries);
    }
    if payload[|payload| - 1] != NUL { return Raised; }
    var ok := ReadFields(utf8, SplitNul(payload[..|payload| - 1]));
    if !ok { return Raised; }
    ReadPrints(utf8, payload);
    return Ok(false);
  }

  /** Whether a status code takes a second path, or an error for an unknown code. */
  method StatusCode(x: char, y: char) returns (r: Checked<bool>)
    ensures r.Ok? <==> ValidCode(x, y)
    ensures r.Ok? ==> r.value == Moves(x, y)
  {
    if x == '?' && y == '?' { return Ok(false); }
    if (x == ' ' && y == ' ') || x == '?' || y == '?' || x == '!' || y == '!' || x !in " MADRCU" || y !in " MADRCU" {
      return Raised;
    }
    return Ok(x == 'R' || y == 'R' || x == 'C' || y == 'C');
  }

  /** The index-advancing loop over the fields. */
  method ReadFields(utf8: Utf8, records: seq<string>) returns (ok: bool)
    ensures ok <==> Read(utf8, records).Some?
  {
    hide ValidPath;
    hide ValidCode;
    hide Moves;
    var index := 0;
    assert records[0..] == records;
    while index < |records|
      invariant index <= |records|
      invariant Read(utf8, records).Some? <==> Read(utf8, records[index..]).Some?
    {
      var record := records[index];
      assert records[index..][1..] == records[index + 1..];
      if |record| < STATUS_RECORD_MIN_BYTES || record[2] != ' ' { return false; }
      var moves := StatusCode(record[0], record[1]);
      if moves.Raised? || !ValidPath(utf8, record[3..]) { return false; }
      index := index + 1;
      if moves.value {
        if index >= |records| || !ValidPath(utf8, records[index]) { return false; }
        index := index + 1;
        assert records[index - 2..][2..] == records[index..];
      }
    }
    assert records[index..] == [];
    return true;
  }
}
