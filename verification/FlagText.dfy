/** What the texts of flag words are: which names in which order, the number behind the digits, and the first unknown token. */
module FlagText {
  import opened Words
  import opened Flags
  import opened FlagTheorems

  // ----- The hexadecimal rest -----

  /** The bits of w from b on, as a number. */
  function Above(w: Word, b: nat): nat
    decreases 32 - b
  {
    if b >= 32 then 0 else (if b in w then 1 else 0) + 2 * Above(w, b + 1)
  }

  /** The 32-bit number whose one bits are w. */
  function Number(w: Word): nat {
    Above(w, 0)
  }

  predicate IsHexDigit(c: char) {
    '0' <= c <= '9' || 'a' <= c <= 'f'
  }

  function DigitValue(c: char): nat
    requires IsHexDigit(c)
  {
    if c <= '9' then c as int - '0' as int else 10 + (c as int - 'a' as int)
  }

  predicate AllHex(s: string) {
    forall i :: 0 <= i < |s| ==> IsHexDigit(s[i])
  }

  /** The number a string of hexadecimal digits stands for. */
  function ReadHex(s: string): nat
    requires AllHex(s)
  {
    if s == "" then 0 else 16 * ReadHex(s[..|s| - 1]) + DigitValue(s[|s| - 1])
  }

  /** Four bits at a time. */
  function Nibble(w: Word, low: nat): nat {
    (if low in w then 1 else 0) + 2 * (if low + 1 in w then 1 else 0)
    + 4 * (if low + 2 in w then 1 else 0) + 8 * (if low + 3 in w then 1 else 0)
  }

  lemma AboveNibble(w: Word, low: nat)
    requires low + 4 <= 32
    ensures Above(w, low) == Nibble(w, low) + 16 * Above(w, low + 4)
  {
    assert Above(w, low + 2) == (if low + 2 in w then 1 else 0) + 2 * Above(w, low + 3);
    assert Above(w, low + 3) == (if low + 3 in w then 1 else 0) + 2 * Above(w, low + 4);
  }

  lemma DigitNames(d: nat)
    requires d < 16
    ensures IsHexDigit("0123456789abcdef"[d]) && DigitValue("0123456789abcdef"[d]) == d
  {
  }

  lemma HexDigitValue(w: Word, i: nat)
    requires i < 8
    ensures IsHexDigit(HexDigit(w, i)) && DigitValue(HexDigit(w, i)) == Nibble(w, 28 - 4 * i)
  {
    DigitNames(Nibble(w, 28 - 4 * i));
  }

  lemma ReadHexStep(s: string, c: char)
    requires AllHex(s) && IsHexDigit(c)
    ensures AllHex(s + [c]) && ReadHex(s + [c]) == 16 * ReadHex(s) + DigitValue(c)
  {
    assert (s + [c])[..|s|] == s;
  }

  predicate IsDigitOf(w: Word, i: nat, c: char) {
    i < 8 && IsHexDigit(c) && DigitValue(c) == Nibble(w, 28 - 4 * i)
  }

  lemma PrefixStep(w: Word, s: string, k: nat, c: char)
    requires k < 8 && AllHex(s) && ReadHex(s) == Above(w, 32 - 4 * k) && IsDigitOf(w, k, c)
    ensures AllHex(s + [c]) && ReadHex(s + [c]) == Above(w, 28 - 4 * k)
  {
    ReadHexStep(s, c);
    AboveNibble(w, 28 - 4 * k);
  }

  lemma {:induction false} HexPrefix(w: Word, digits: string, k: nat)
    requires k <= |digits| == 8 && forall i :: 0 <= i < 8 ==> IsDigitOf(w, i, digits[i])
    ensures AllHex(digits[..k]) && ReadHex(digits[..k]) == Above(w, 32 - 4 * k)
  {
    if k > 0 {
      HexPrefix(w, digits, k - 1);
      PrefixStep(w, digits[..k - 1], k - 1, digits[k - 1]);
      assert digits[..k] == digits[..k - 1] + [digits[k - 1]];
    }
  }

  /** The format is 0x and eight digits, and they read back as the word. */
  lemma HexDenotes(w: Word)
    ensures |Hex(w)| == 10 && Hex(w)[..2] == "0x"
    ensures AllHex(Hex(w)[2..]) && ReadHex(Hex(w)[2..]) == Number(w)
  {
    var digits := Hex(w)[2..];
    forall i | 0 <= i < 8
      ensures IsDigitOf(w, i, digits[i])
    {
      HexDigitValue(w, i);
    }
    HexPrefix(w, digits, 8);
    assert digits[..8] == digits;
  }

  // ----- The names -----

  /** An entry is printed exactly when it has bits and the word has all of them. */
  lemma {:induction false} PrintedExactlyWhen(table: seq<Entry>, flags: Word, e: Entry)
    ensures e in Printed(table, flags) <==> e in table && e.value != {} && e.value <= flags
  {
    if table != [] {
      var n := |table| - 1;
      PrintedExactlyWhen(table[..n], flags, e);
      assert table == table[..n] + [table[n]];
    }
  }

  /** Each entry is judged by itself, in table order. */
  lemma {:induction false} PrintedConcat(a: seq<Entry>, b: seq<Entry>, flags: Word)
    ensures Printed(a + b, flags) == Printed(a, flags) + Printed(b, flags)
  {
    if b == [] {
      assert a + b == a;
    } else {
      var n := |b| - 1;
      PrintedConcat(a, b[..n], flags);
      assert (a + b)[..|a| + n] == a + b[..n];
    }
  }

  lemma {:induction false} JoinConcat(a: seq<string>, b: seq<string>)
    requires a != [] && b != []
    ensures Join(a + b) == Join(a) + "," + Join(b)
  {
    assert (a + b)[1..] == a[1..] + b;
    if |a| > 1 {
      JoinConcat(a[1..], b);
    }
  }

  /** The text of a nonzero word: its names and, for the bits no entry covers, one number; one comma between any two. */
  lemma PrintedText(table: seq<Entry>, flags: Word, rest: Word)
    requires flags != {}
    requires forall b :: b in rest <==> b in flags && !CoversBit(table, flags, b)
    ensures var names := Names(Printed(table, flags));
            Print(table, flags) == if rest == {} then Join(names)
                                   else if names == [] then Hex(rest)
                                   else Join(names) + "," + Hex(rest)
  {
    forall b
      ensures b in Remaining(table, flags) <==> b in rest
    {
      RemainingBits(table, flags, b);
    }
    assert Remaining(table, flags) == rest;
    if rest != {} && Printed(table, flags) != [] {
      JoinConcat(Names(Printed(table, flags)), [Hex(rest)]);
    }
  }

  // ----- The tokens -----

  lemma TokensOfToken(t: string)
    requires IsToken(t)
    ensures Tokens(t) == [t]
  {
    TokensStep(t, "");
    assert t + "" == t;
  }

  lemma SkipComma(text: string)
    requires text != "" && text[0] == ','
    ensures Tokens(text) == Tokens(text[1..])
  {
  }

  lemma ConcatComma(a: string, b: string)
    requires a != "" && a[0] == ',' && Tokens(a[1..] + "," + b) == Tokens(a[1..]) + Tokens(b)
    ensures Tokens(a + "," + b) == Tokens(a) + Tokens(b)
  {
    assert (a + "," + b)[1..] == a[1..] + "," + b;
    SkipComma(a + "," + b);
    SkipComma(a);
  }

  lemma ConcatToken(t: string, rest: string, b: string)
    requires IsToken(t) && (rest != "" ==> rest[0] == ',') && Tokens(rest + "," + b) == Tokens(rest) + Tokens(b)
    ensures Tokens(t + rest + "," + b) == Tokens(t + rest) + Tokens(b)
  {
    TokensStep(t, rest);
    TokensStep(t, rest + "," + b);
    assert t + rest + "," + b == t + (rest + "," + b);
    Assoc([t], Tokens(rest), Tokens(b));
  }

  /** A comma separates: the tokens of both sides, in order; empty items do not count. */
  lemma {:induction false} TokensConcat(a: string, b: string)
    ensures Tokens(a + "," + b) == Tokens(a) + Tokens(b)
    decreases |a|
  {
    if a == "" {
      assert a + "," + b == "," + b;
      SkipComma("," + b);
    } else if a[0] == ',' {
      TokensConcat(a[1..], b);
      ConcatComma(a, b);
    } else {
      var t, rest := a[..Span(a)], a[Span(a)..];
      assert t + rest == a;
      TokensConcat(rest, b);
      ConcatToken(t, rest, b);
    }
  }

  // ----- Parsing -----

  /** A name denotes the value of its first row. */
  lemma LookupExactlyWhen(table: seq<Entry>, name: string)
    ensures Lookup(table, name).None? <==> forall i :: 0 <= i < |table| ==> table[i].name != name
    ensures forall k :: 0 <= k < |table| && table[k].name == name && (forall i :: 0 <= i < k ==> table[i].name != name)
              ==> Lookup(table, name) == Some(table[k].value)
  {
    LookupFound(table, name);
    forall k | 0 <= k < |table| && table[k].name == name && (forall i :: 0 <= i < k ==> table[i].name != name)
      ensures Lookup(table, name) == Some(table[k].value)
    {
      LookupFirst(table, k);
    }
    if Lookup(table, name).None? {
      NoSuchName(table, name);
    }
  }

  lemma {:induction false} NoSuchName(table: seq<Entry>, name: string)
    requires Lookup(table, name).None?
    ensures forall i :: 0 <= i < |table| ==> table[i].name != name
  {
    if table != [] {
      NoSuchName(table[1..], name);
      assert table == [table[0]] + table[1..];
    }
  }

  /** A failed parse stops at the first unknown token, with the bits the tokens before it grant. */
  lemma {:induction false} FailsAtFirstUnknown(table: seq<Entry>, ts: seq<string>, flags: Word, n: nat)
    requires n < |ts| && Known(table, ts[..n]) && Lookup(table, ts[n]).None?
    ensures !ParseTokens(table, ts, flags).0
    ensures forall b :: b in ParseTokens(table, ts, flags).1 <==> b in flags || exists i :: 0 <= i < n && Grants(table, ts[i], b)
  {
    var known := ts[..n];
    TokensMean(table, known, flags);
    ParseAppend(table, known, ts[n..], flags);
    assert ts == known + ts[n..];
    assert forall i :: 0 <= i < n ==> known[i] == ts[i];
  }
}
