/**
 * Flag words given by name on the command line, and printed by name in dumps. A 32-bit word is the
 * set of its one bits: the code only joins words (|), clears bits (&= ~) and tests whether all bits
 * of a value are set ((flags & value) == value), which are union, difference and inclusion.
 */
module Flags {
  import opened Words

  type Word = w: set<nat> | forall b :: b in w ==> b < 32

  /** One row of a value_string_entry_t table. */
  datatype Entry = Entry(value: Word, name: string)

  // ----- Comma-separated lists -----

  /** Length of the longest prefix without a comma. */
  function Span(text: string): (k: nat)
    ensures k <= |text| && (k < |text| ==> text[k] == ',') && (forall i :: 0 <= i < k ==> text[i] != ',')
  {
    if text == "" || text[0] == ',' then 0 else 1 + Span(text[1..])
  }

  /** What successive calls of strtok with the delimiter "," return. */
  function Tokens(text: string): seq<string>
    decreases |text|
  {
    if text == "" then []
    else if text[0] == ',' then Tokens(text[1..])
    else [text[..Span(text)]] + Tokens(text[Span(text)..])
  }

  predicate IsToken(t: string) {
    t != "" && forall i :: 0 <= i < |t| ==> t[i] != ','
  }

  function Join(ts: seq<string>): string {
    if ts == [] then "" else if |ts| == 1 then ts[0] else ts[0] + "," + Join(ts[1..])
  }

  lemma {:induction false} JoinAppend(ts: seq<string>, t: string)
    requires ts != []
    ensures Join(ts + [t]) == Join(ts) + "," + t
  {
    assert (ts + [t])[1..] == ts[1..] + [t];
    if |ts| > 1 {
      JoinAppend(ts[1..], t);
    }
  }

  lemma SpanOf(t: string, rest: string)
    requires IsToken(t) && (rest != "" ==> rest[0] == ',')
    ensures Span(t + rest) == |t|
  {
    var text := t + rest;
    assert forall i :: 0 <= i < |t| ==> text[i] == t[i];
    assert rest != "" ==> text[|t|] == rest[0];
  }

  lemma TokensStep(t: string, rest: string)
    requires IsToken(t) && (rest != "" ==> rest[0] == ',')
    ensures Tokens(t + rest) == [t] + Tokens(rest)
  {
    SpanOf(t, rest);
    assert (t + rest)[0] == t[0];
    assert (t + rest)[..|t|] == t && (t + rest)[|t|..] == rest;
  }

  /** Splitting undoes joining. */
  lemma {:induction false} SplitJoined(ts: seq<string>)
    requires forall i :: 0 <= i < |ts| ==> IsToken(ts[i])
    ensures Tokens(Join(ts)) == ts
  {
    if |ts| == 1 {
      TokensStep(ts[0], "");
      assert ts[0] + "" == ts[0];
    } else if |ts| > 1 {
      var rest := "," + Join(ts[1..]);
      TokensStep(ts[0], rest);
      assert ts[0] + "," + Join(ts[1..]) == ts[0] + rest;
      assert rest[1..] == Join(ts[1..]);
      SplitJoined(ts[1..]);
    }
  }

  // ----- Parsing -----

  function Lookup(table: seq<Entry>, name: string): Option<Word> {
    if table == [] then None
    else if name == table[0].name then Some(table[0].value)
    else Lookup(table[1..], name)
  }

  /** Success, and the flag word, which is partial on failure. */
  function ParseTokens(table: seq<Entry>, ts: seq<string>, flags: Word): (bool, Word) {
    if ts == [] then (true, flags) else
    match Lookup(table, ts[0])
    case None => (false, flags)
    case Some(value) => ParseTokens(table, ts[1..], flags + value)
  }

  function Parse(table: seq<Entry>, text: string): (bool, Word) {
    ParseTokens(table, Tokens(text), {})
  }

  method GetValueFromName(table: seq<Entry>, name: string) returns (value: Option<Word>)
    ensures value == Lookup(table, name)
  {
    for index := 0 to |table|
      invariant Lookup(table, name) == Lookup(table[index..], name)
    {
      assert table[index..][1..] == table[index + 1..];
      if name == table[index].name {
        return Some(table[index].value);
      }
    }
    value := None;
  }

  method SkipCommas(text: string, start: nat) returns (from: nat)
    requires start <= |text|
    ensures start <= from <= |text| && (from < |text| ==> text[from] != ',')
    ensures Tokens(text[start..]) == Tokens(text[from..])
  {
    from := start;
    while from < |text| && text[from] == ','
      invariant start <= from <= |text|
      invariant Tokens(text[start..]) == Tokens(text[from..])
    {
      assert text[from..][1..] == text[from + 1..];
      from := from + 1;
    }
  }

  method SkipToken(text: string, from: nat) returns (end: nat)
    requires from <= |text|
    ensures from <= end <= |text| && (end < |text| ==> text[end] == ',')
    ensures forall i :: from <= i < end ==> text[i] != ','
  {
    end := from;
    while end < |text| && text[end] != ','
      invariant from <= end <= |text|
      invariant forall i :: from <= i < end ==> text[i] != ','
    {
      end := end + 1;
    }
  }

  lemma TokenAt(text: string, from: nat, end: nat)
    requires from < end <= |text| && (end < |text| ==> text[end] == ',')
    requires forall i :: from <= i < end ==> text[i] != ','
    ensures Tokens(text[from..]) == [text[from..end]] + Tokens(text[if end < |text| then end + 1 else end..])
  {
    TokensStep(text[from..end], text[end..]);
    assert text[from..] == text[from..end] + text[end..];
    if end < |text| {
      assert text[end..][1..] == text[end + 1..];
    }
  }

  /** strtok: the empty string stands for its null result. */
  method NextToken(text: string, start: nat) returns (token: string, next: nat)
    requires start <= |text|
    ensures start <= next <= |text| && (token != "" ==> start < next)
    ensures Tokens(text[start..]) == if token == "" then [] else [token] + Tokens(text[next..])
  {
    var from := SkipCommas(text, start);
    if from == |text| {
      return "", from;
    }
    var end := SkipToken(text, from);
    TokenAt(text, from, end);
    token, next := text[from..end], if end < |text| then end + 1 else end;
  }

  method GetFlagsFromName(table: seq<Entry>, name: string) returns (ok: bool, flags: Word)
    ensures (ok, flags) == Parse(table, name)
  {
    flags := {};
    var token, next := NextToken(name, 0);
    assert name[0..] == name;
    while token != ""
      invariant next <= |name|
      invariant Parse(table, name) == ParseTokens(table, if token == "" then [] else [token] + Tokens(name[next..]), flags)
      decreases |name| - next, |token|
    {
      var value := GetValueFromName(table, token);
      if value.None? {
        return false, flags;
      }
      flags := flags + value.value;
      token, next := NextToken(name, next);
    }
    ok := true;
  }

  // ----- Printing -----

  /** All bits of the entry are set in the flag word. */
  predicate Printable(e: Entry, flags: Word) {
    e.value != {} && e.value <= flags
  }

  /** The entries printed, in table order. */
  function Printed(table: seq<Entry>, flags: Word): seq<Entry> {
    if table == [] then [] else
    var n := |table| - 1;
    if Printable(table[n], flags) then Printed(table[..n], flags) + [table[n]] else Printed(table[..n], flags)
  }

  function Values(entries: seq<Entry>): Word {
    if entries == [] then {} else Values(entries[..|entries| - 1]) + entries[|entries| - 1].value
  }

  function Names(entries: seq<Entry>): (r: seq<string>)
    ensures |r| == |entries|
  {
    seq(|entries|, i requires 0 <= i < |entries| => entries[i].name)
  }

  /** Bits of the flag word in no printed entry. */
  function Remaining(table: seq<Entry>, flags: Word): Word {
    flags - Values(Printed(table, flags))
  }

  /** Hexadecimal digit i of eight, most significant first. */
  function HexDigit(v: Word, i: nat): char
    requires i < 8
  {
    var low := 28 - 4 * i;
    var d := (if low in v then 1 else 0) + (if low + 1 in v then 2 else 0)
           + (if low + 2 in v then 4 else 0) + (if low + 3 in v then 8 else 0);
    "0123456789abcdef"[d]
  }

  /** The format 0x%08x. */
  function Hex(v: Word): string {
    "0x" + seq(8, i requires 0 <= i < 8 => HexDigit(v, i))
  }

  function Pieces(table: seq<Entry>, flags: Word): seq<string> {
    var names, remaining := Names(Printed(table, flags)), Remaining(table, flags);
    if remaining != {} then names + [Hex(remaining)] else names
  }

  function Print(table: seq<Entry>, flags: Word): string {
    if flags == {} then "NONE" else Join(Pieces(table, flags))
  }

  // ----- What printing keeps -----

  lemma ValuesAppend(entries: seq<Entry>, e: Entry)
    ensures Values(entries + [e]) == Values(entries) + e.value
  {
    assert (entries + [e])[..|entries|] == entries;
  }

  lemma {:induction false} PrintedWithin(table: seq<Entry>, flags: Word)
    ensures Values(Printed(table, flags)) <= flags
  {
    if table != [] {
      var n := |table| - 1;
      PrintedWithin(table[..n], flags);
      if Printable(table[n], flags) {
        ValuesAppend(Printed(table[..n], flags), table[n]);
      }
    }
  }

  /** Printed bits and remaining bits share nothing and make up the flag word. */
  lemma PrintedAndRemaining(table: seq<Entry>, flags: Word)
    ensures Values(Printed(table, flags)) + Remaining(table, flags) == flags
    ensures Values(Printed(table, flags)) !! Remaining(table, flags)
  {
    PrintedWithin(table, flags);
  }

  /** The variables of the printing loop after some entries. */
  predicate PrintState(printed: seq<Entry>, flags: Word, output: string, first: bool, remaining: Word) {
    && remaining == flags - Values(printed)
    && output == Join(Names(printed))
    && first == (printed == [])
  }

  lemma PrintStep(printed: seq<Entry>, flags: Word, output: string, first: bool, remaining: Word, e: Entry)
    requires PrintState(printed, flags, output, first, remaining)
    ensures PrintState(printed + [e], flags, output + (if first then "" else ",") + e.name, false, remaining - e.value)
  {
    ValuesAppend(printed, e);
    PieceStep(Names(printed), e.name);
    assert Names(printed + [e]) == Names(printed) + [e.name];
  }

  lemma PieceStep(pieces: seq<string>, piece: string)
    ensures Join(pieces + [piece]) == Join(pieces) + (if pieces == [] then "" else ",") + piece
  {
    if pieces != [] {
      JoinAppend(pieces, piece);
    }
  }

  lemma PrintedAt(table: seq<Entry>, index: nat, flags: Word)
    requires index < |table|
    ensures Printed(table[..index + 1], flags)
         == if Printable(table[index], flags) then Printed(table[..index], flags) + [table[index]] else Printed(table[..index], flags)
  {
    assert table[..index + 1][..index] == table[..index];
  }

  method DumpFlagNames(table: seq<Entry>, flags: Word) returns (output: string)
    ensures output == Print(table, flags)
  {
    if flags == {} {
      return "NONE";
    }
    var remaining: Word := flags;
    var first := true;
    output := "";
    ghost var printed := [];
    for index := 0 to |table|
      invariant printed == Printed(table[..index], flags)
      invariant PrintState(printed, flags, output, first, remaining)
    {
      PrintedAt(table, index, flags);
      if table[index].value != {} && table[index].value <= flags {
        PrintStep(printed, flags, output, first, remaining, table[index]);
        output := output + (if first then "" else ",") + table[index].name;
        first := false;
        remaining := remaining - table[index].value;
        printed := printed + [table[index]];
      }
    }
    assert table[..|table|] == table;
    if remaining != {} {
      PieceStep(Names(printed), Hex(remaining));
      output := output + (if first then "" else ",") + Hex(remaining);
    }
  }
}
