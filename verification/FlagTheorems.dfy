/** Printing a flag word and parsing the text gives the word back, and exactly when. */
module FlagTheorems {
  import opened Words
  import opened Flags

  // ----- What a parsed text means -----

  predicate Known(table: seq<Entry>, ts: seq<string>) {
    forall i :: 0 <= i < |ts| ==> Lookup(table, ts[i]).Some?
  }

  predicate Grants(table: seq<Entry>, name: string, b: nat) {
    Lookup(table, name).Some? && b in Lookup(table, name).value
  }

  /**
   * Parsing succeeds exactly when every token is a name of the table, and then sets exactly the
   * bits some token grants: order and repetition do not matter.
   */
  lemma {:induction false} TokensMean(table: seq<Entry>, ts: seq<string>, flags: Word)
    ensures ParseTokens(table, ts, flags).0 <==> Known(table, ts)
    ensures ParseTokens(table, ts, flags).0 ==>
              forall b :: b in ParseTokens(table, ts, flags).1 <==> b in flags || exists i :: 0 <= i < |ts| && Grants(table, ts[i], b)
  {
    if ts != [] {
      assert Known(table, ts) <==> Lookup(table, ts[0]).Some? && Known(table, ts[1..]) by {
        assert ts == [ts[0]] + ts[1..];
      }
      if Lookup(table, ts[0]).Some? {
        TokensMean(table, ts[1..], flags + Lookup(table, ts[0]).value);
        forall b
          ensures (exists i :: 0 <= i < |ts| && Grants(table, ts[i], b))
             <==> Grants(table, ts[0], b) || exists i :: 0 <= i < |ts[1..]| && Grants(table, ts[1..][i], b)
        {
          if i :| 0 <= i < |ts[1..]| && Grants(table, ts[1..][i], b) {
            assert Grants(table, ts[i + 1], b);
          }
          if i :| 0 < i < |ts| && Grants(table, ts[i], b) {
            assert Grants(table, ts[1..][i - 1], b);
          }
        }
      }
    }
  }

  lemma {:induction false} ParseAppend(table: seq<Entry>, ts: seq<string>, us: seq<string>, flags: Word)
    requires ParseTokens(table, ts, flags).0
    ensures ParseTokens(table, ts + us, flags) == ParseTokens(table, us, ParseTokens(table, ts, flags).1)
  {
    if ts == [] {
      assert ts + us == us;
    } else {
      assert (ts + us)[1..] == ts[1..] + us;
      ParseAppend(table, ts[1..], us, flags + Lookup(table, ts[0]).value);
    }
  }

  // ----- Tables -----

  /** Every name can stand in a list and denotes its own entry's value. */
  predicate Resolves(table: seq<Entry>) {
    forall i :: 0 <= i < |table| ==> IsToken(table[i].name) && Lookup(table, table[i].name) == Some(table[i].value)
  }

  lemma {:induction false} LookupFirst(table: seq<Entry>, k: nat)
    requires k < |table| && forall i :: 0 <= i < k ==> table[i].name != table[k].name
    ensures Lookup(table, table[k].name) == Some(table[k].value)
  {
    if k > 0 {
      assert table[1..][k - 1] == table[k];
      assert table[0].name != table[k].name;
      forall i | 0 <= i < k - 1 ensures table[1..][i].name != table[k].name { assert table[i + 1].name != table[k].name; }
      LookupFirst(table[1..], k - 1);
    }
  }

  lemma DistinctNamesResolve(table: seq<Entry>)
    requires forall i :: 0 <= i < |table| ==> IsToken(table[i].name)
    requires forall i, j :: 0 <= i < j < |table| ==> table[i].name != table[j].name
    ensures Resolves(table)
  {
    forall k | 0 <= k < |table|
      ensures Lookup(table, table[k].name) == Some(table[k].value)
    {
      LookupFirst(table, k);
    }
  }

  predicate Denoted(table: seq<Entry>, entries: seq<Entry>) {
    forall i :: 0 <= i < |entries| ==> IsToken(entries[i].name) && Lookup(table, entries[i].name) == Some(entries[i].value)
  }

  lemma {:induction false} PrintedDenoted(table: seq<Entry>, part: seq<Entry>, flags: Word)
    requires Denoted(table, part)
    ensures Denoted(table, Printed(part, flags))
  {
    if part != [] {
      PrintedDenoted(table, part[..|part| - 1], flags);
    }
  }

  /** Parsing names unites their values. */
  lemma {:induction false} NamesParse(table: seq<Entry>, entries: seq<Entry>)
    requires Denoted(table, entries)
    ensures ParseTokens(table, Names(entries), {}) == (true, Values(entries))
  {
    if entries != [] {
      var n := |entries| - 1;
      NamesParse(table, entries[..n]);
      assert Names(entries) == Names(entries[..n]) + [entries[n].name];
      ParseAppend(table, Names(entries[..n]), [entries[n].name], {});
    }
  }

  // ----- The round trip -----

  lemma PiecesAreTokens(table: seq<Entry>, flags: Word)
    requires Resolves(table)
    ensures forall i :: 0 <= i < |Pieces(table, flags)| ==> IsToken(Pieces(table, flags)[i])
  {
    PrintedDenoted(table, table, flags);
    var hex := Hex(Remaining(table, flags));
    forall i | 0 <= i < |hex|
      ensures hex[i] != ','
    {
      if i >= 2 {
        assert hex[i] == HexDigit(Remaining(table, flags), i - 2);
        HexDigitIsNoComma(Remaining(table, flags), i - 2);
      }
    }
  }

  lemma HexDigitIsNoComma(v: Word, i: nat)
    requires i < 8
    ensures HexDigit(v, i) != ','
  {
    var digits := "0123456789abcdef";
    assert forall d :: 0 <= d < |digits| ==> digits[d] != ',';
  }

  /** What parsing the printed form of a nonzero word gives. */
  lemma ParsePrinted(table: seq<Entry>, flags: Word)
    requires Resolves(table) && flags != {}
    ensures Parse(table, Print(table, flags))
         == if Remaining(table, flags) == {} then (true, flags)
            else ParseTokens(table, [Hex(Remaining(table, flags))], Values(Printed(table, flags)))
  {
    PiecesAreTokens(table, flags);
    SplitJoined(Pieces(table, flags));
    PrintedDenoted(table, table, flags);
    NamesParse(table, Printed(table, flags));
    PrintedAndRemaining(table, flags);
    assert Remaining(table, flags) == {} ==> Values(Printed(table, flags)) == flags;
    ParseAppend(table, Names(Printed(table, flags)), [Hex(Remaining(table, flags))], {});
  }

  /** Some entry has the bit and no bit outside the word. */
  predicate CoversBit(table: seq<Entry>, flags: Word, b: nat) {
    exists k :: 0 <= k < |table| && b in table[k].value && table[k].value <= flags
  }

  /** The table covers the word: a condition on table and word alone. */
  predicate Covered(table: seq<Entry>, flags: Word) {
    forall b :: b in flags ==> CoversBit(table, flags, b)
  }

  lemma {:induction false} PrintedBitIsCovered(table: seq<Entry>, flags: Word, b: nat)
    requires b in Values(Printed(table, flags))
    ensures CoversBit(table, flags, b)
  {
    var n := |table| - 1;
    if Printable(table[n], flags) {
      ValuesAppend(Printed(table[..n], flags), table[n]);
    }
    if !(Printable(table[n], flags) && b in table[n].value) {
      PrintedBitIsCovered(table[..n], flags, b);
      var k :| 0 <= k < n && b in table[..n][k].value && table[..n][k].value <= flags;
      assert table[k] == table[..n][k];
    }
  }

  lemma {:induction false} PrintableIsPrinted(table: seq<Entry>, flags: Word, k: nat)
    requires k < |table| && Printable(table[k], flags)
    ensures table[k].value <= Values(Printed(table, flags))
  {
    var n := |table| - 1;
    if k < n {
      PrintableIsPrinted(table[..n], flags, k);
    }
    if Printable(table[n], flags) {
      ValuesAppend(Printed(table[..n], flags), table[n]);
    }
  }

  /** The loop leaves exactly the bits that no entry covers. */
  lemma RemainingBits(table: seq<Entry>, flags: Word, b: nat)
    ensures b in Remaining(table, flags) <==> b in flags && !CoversBit(table, flags, b)
  {
    if b in Values(Printed(table, flags)) {
      PrintedBitIsCovered(table, flags, b);
    }
    if k :| 0 <= k < |table| && b in table[k].value && table[k].value <= flags {
      PrintableIsPrinted(table, flags, k);
    }
  }

  lemma CoveredLeavesNothing(table: seq<Entry>, flags: Word)
    ensures Covered(table, flags) <==> Remaining(table, flags) == {}
  {
    forall b ensures b in Remaining(table, flags) <==> b in flags && !CoversBit(table, flags, b) {
      RemainingBits(table, flags, b);
    }
  }

  lemma ParseOne(table: seq<Entry>, name: string, flags: Word)
    ensures ParseTokens(table, [name], flags)
         == match Lookup(table, name) case None => (false, flags) case Some(value) => (true, flags + value)
  {
    assert [name][1..] == [];
  }

  /** A hexadecimal remainder is never read as the missing bits: an entry with them would have covered them. */
  lemma RemainderIsNotRead(table: seq<Entry>, flags: Word)
    requires Resolves(table) && flags != {} && !Covered(table, flags)
    ensures Parse(table, Print(table, flags)) != (true, flags)
  {
    var rest := Remaining(table, flags);
    CoveredLeavesNothing(table, flags);
    ParsePrinted(table, flags);
    ParseOne(table, Hex(rest), Values(Printed(table, flags)));
    LookupFound(table, Hex(rest));
    if Lookup(table, Hex(rest)).Some? {
      var k :| 0 <= k < |table| && table[k] == Entry(Lookup(table, Hex(rest)).value, Hex(rest));
      var b :| b in rest;
      RemainingBits(table, flags, b);
      assert Values(Printed(table, flags)) + table[k].value != flags;
    }
  }

  /**
   * Printing and then parsing gives the word back exactly when the table covers it, overlapping
   * entries included; for the zero word, exactly when the table has a name NONE for it.
   */
  lemma RoundTripExactlyWhen(table: seq<Entry>, flags: Word)
    requires Resolves(table)
    ensures Parse(table, Print(table, flags)) == (true, flags)
       <==> if flags == {} then Lookup(table, "NONE") == Some({}) else Covered(table, flags)
  {
    if flags == {} {
      SplitJoined(["NONE"]);
      ParseOne(table, "NONE", {});
      assert Lookup(table, "NONE").Some? ==> {} + Lookup(table, "NONE").value == Lookup(table, "NONE").value;
    } else if Covered(table, flags) {
      CoveredLeavesNothing(table, flags);
      ParsePrinted(table, flags);
    } else {
      RemainderIsNotRead(table, flags);
    }
  }

  /** In tables without that name: exactly the nonzero words the table covers. */
  lemma RoundTripOfCovered(table: seq<Entry>, flags: Word)
    requires Resolves(table) && forall i :: 0 <= i < |table| ==> table[i].name != "NONE"
    ensures Parse(table, Print(table, flags)) == (true, flags) <==> flags != {} && Covered(table, flags)
  {
    RoundTripExactlyWhen(table, flags);
    LookupFound(table, "NONE");
  }

  /** Bit 1 in a table that only has bit 0, and the zero word, do not come back. */
  lemma UncoveredWord(table: seq<Entry>, flags: Word)
    requires table == [Entry({0}, "A")] && flags == {1}
    ensures Print(table, flags) == Hex(flags) && !Parse(table, Print(table, flags)).0
    ensures Print(table, {}) == "NONE" && !Parse(table, Print(table, {})).0
  {
    assert table[..0] == [] && table[1..] == [] && 0 !in flags;
    assert Printed(table, flags) == [];
    assert Remaining(table, flags) == flags;
    assert Pieces(table, flags) == [Hex(flags)];
    PiecesAreTokens(table, flags);
    SplitJoined([Hex(flags)]);
    SplitJoined(["NONE"]);
    assert |Hex(flags)| == 10 && |"A"| == 1 && |"NONE"| == 4;
    ParseOne(table, Hex(flags), {});
    ParseOne(table, "NONE", {});
  }

  lemma {:induction false} LookupFound(table: seq<Entry>, name: string)
    ensures Lookup(table, name).Some? ==> exists k :: 0 <= k < |table| && table[k] == Entry(Lookup(table, name).value, name)
  {
    if table != [] {
      if name == table[0].name {
        assert table[0] == Entry(Lookup(table, name).value, name);
      } else {
        LookupFound(table[1..], name);
        if Lookup(table, name).Some? {
          var k :| 0 <= k < |table[1..]| && table[1..][k] == Entry(Lookup(table, name).value, name);
          assert table[k + 1] == Entry(Lookup(table, name).value, name);
        }
      }
    }
  }

  // ----- Every word given by name can be printed by name -----

  lemma ParsedIsCovered(table: seq<Entry>, ts: seq<string>, flags: Word)
    requires ParseTokens(table, ts, {}) == (true, flags)
    ensures Covered(table, flags)
  {
    TokensMean(table, ts, {});
    forall b | b in flags
      ensures CoversBit(table, flags, b)
    {
      var i :| 0 <= i < |ts| && Grants(table, ts[i], b);
      LookupFound(table, ts[i]);
      var k :| 0 <= k < |table| && table[k] == Entry(Lookup(table, ts[i]).value, ts[i]);
      assert table[k].value <= flags by {
        forall c | c in table[k].value ensures c in flags { assert Grants(table, ts[i], c); }
      }
    }
  }

  /** Whatever text gave a nonzero flag word, printing the word gives a text for the same word. */
  lemma ParsedWordsPrint(table: seq<Entry>, text: string)
    requires Resolves(table)
    ensures var (ok, flags) := Parse(table, text);
            ok && flags != {} ==> Parse(table, Print(table, flags)) == (true, flags)
  {
    var (ok, flags) := Parse(table, text);
    if ok && flags != {} {
      ParsedIsCovered(table, Tokens(text), flags);
      RoundTripExactlyWhen(table, flags);
    }
  }
}
