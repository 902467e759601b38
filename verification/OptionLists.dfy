/**
  The list options of tools/dfbscreen.c: comma separated names that are looked up
  in a table of values, and comma separated numbers that select bits.

  A machine word is represented by the set of its bits: `|=` is set union and
  `1 << n` is the set of n alone.
 */
module OptionLists {
  import opened Basics

  type Word = set<nat>

  datatype ValueName = ValueName(value: Word, name: string)

  // ---- Text ----

  function Lower(c: char): char {
    if 'A' <= c <= 'Z' then (c as int + 32) as char else c
  }

  /** strncasecmp( name, token, |token| ) == 0 for a token without NUL. */
  predicate StartsWith(name: string, token: string) {
    |token| <= |name| && forall i :: 0 <= i < |token| ==> Lower(name[i]) == Lower(token[i])
  }

  /** strcasecmp( a, b ) == 0 */
  predicate SameText(a: string, b: string) {
    |a| == |b| && StartsWith(a, b)
  }

  /** Characters count as the same when they are, or when they are one letter in two cases. */
  predicate SameLetter(c: char, d: char) {
    || c == d
    || ('A' <= c <= 'Z' && d as int == c as int + 32)
    || ('A' <= d <= 'Z' && c as int == d as int + 32)
  }

  lemma LettersOfBothCases(c: char, d: char)
    ensures Lower(c) == Lower(d) <==> SameLetter(c, d)
  {
  }

  /** Both comparisons look at letters without their case, and at nothing else. */
  lemma TextsCompared(a: string, b: string)
    ensures StartsWith(a, b) <==> |b| <= |a| && forall i :: 0 <= i < |b| ==> SameLetter(a[i], b[i])
    ensures SameText(a, b) <==> |b| == |a| && forall i :: 0 <= i < |b| ==> SameLetter(a[i], b[i])
  {
    forall i | 0 <= i < |a| && i < |b| ensures Lower(a[i]) == Lower(b[i]) <==> SameLetter(a[i], b[i]) {
      LettersOfBothCases(a[i], b[i]);
    }
    hide Lower, SameLetter;
  }

  function SkipCommas(s: string): (r: string)
    ensures |r| <= |s| && (r != "" ==> r[0] != ',')
  {
    if s != "" && s[0] == ',' then SkipCommas(s[1..]) else s
  }

  function TokenLength(s: string): (n: nat)
    ensures n <= |s| && ',' !in s[..n] && (n < |s| ==> s[n] == ',')
  {
    if s == "" || s[0] == ',' then 0
    else
      var n := TokenLength(s[1..]);
      assert s[..1 + n] == [s[0]] + s[1..][..n];
      1 + n
  }

  /** What stands between the commas, empty pieces left out. */
  function Tokens(s: string): seq<string>
    decreases |s|
  {
    var t := SkipCommas(s);
    if t == "" then [] else [t[..TokenLength(t)]] + Tokens(t[TokenLength(t)..])
  }

  function Commas(n: nat): string {
    seq(n, _ => ',')
  }

  /** A list as a user may write it: every item followed by a run of commas. */
  function Written(items: seq<(string, nat)>): string {
    if items == [] then "" else items[0].0 + Commas(items[0].1) + Written(items[1..])
  }

  function Names(items: seq<(string, nat)>): seq<string> {
    seq(|items|, i requires 0 <= i < |items| => items[i].0)
  }

  /** Items are not empty and hold no comma, and only behind the last one the commas may be missing. */
  ghost predicate WellWritten(items: seq<(string, nat)>) {
    forall i :: 0 <= i < |items| ==>
      items[i].0 != "" && ',' !in items[i].0 && (i < |items| - 1 ==> items[i].1 > 0)
  }

  lemma {:induction false} SkipRun(n: nat, s: string)
    ensures SkipCommas(Commas(n) + s) == SkipCommas(s)
  {
    if n == 0 {
      assert Commas(0) + s == s;
    } else {
      assert (Commas(n) + s)[1..] == Commas(n - 1) + s;
      SkipRun(n - 1, s);
    }
  }

  lemma {:induction false} TokenEnds(name: string, s: string)
    requires ',' !in name && (s == "" || s[0] == ',')
    ensures TokenLength(name + s) == |name|
  {
    if name == "" {
      assert name + s == s;
    } else {
      assert (name + s)[1..] == name[1..] + s;
      TokenEnds(name[1..], s);
    }
  }

  /** Tokens undoes every way of writing a list, whatever commas lead, separate or follow. */
  lemma {:induction false} TokensOfWritten(lead: nat, items: seq<(string, nat)>)
    requires WellWritten(items)
    ensures Tokens(Commas(lead) + Written(items)) == Names(items)
    decreases |items|
  {
    SkipRun(lead, Written(items));
    if items != [] {
      var (name, n) := items[0];
      var rest := Commas(n) + Written(items[1..]);
      assert Written(items) == name + rest;
      if n == 0 {
        assert |items| == 1 && rest == "";
      }
      TokenEnds(name, rest);
      assert (name + rest)[..|name|] == name && (name + rest)[|name|..] == rest;
      TokensOfWritten(n, items[1..]);
      assert Names(items) == [name] + Names(items[1..]);
    }
  }

  // ---- Looking up one name ----

  /** The table ends with the first entry whose value is zero; that entry still takes part. */
  ghost function TableEnd(table: seq<ValueName>): (n: nat)
    requires IsTable(table)
    ensures 0 < n <= |table| && table[n - 1].value == {}
    ensures forall k :: 0 <= k < n - 1 ==> table[k].value != {}
  {
    if table[0].value == {} then 1
    else
      var k :| 0 <= k < |table| && table[k].value == {};
      assert table[1..][k - 1].value == {};
      1 + TableEnd(table[1..])
  }

  ghost predicate IsTable(table: seq<ValueName>) {
    exists k :: 0 <= k < |table| && table[k].value == {}
  }

  predicate Exact(entry: ValueName, token: string) {
    StartsWith(entry.name, token) && |entry.name| == |token|
  }

  function FirstExact(entries: seq<ValueName>, token: string): Option<Word> {
    if entries == [] then None
    else if Exact(entries[0], token) then Some(entries[0].value)
    else FirstExact(entries[1..], token)
  }

  function LastPrefix(entries: seq<ValueName>, token: string): Option<Word> {
    if entries == [] then None
    else if StartsWith(entries[|entries| - 1].name, token) then Some(entries[|entries| - 1].value)
    else LastPrefix(entries[..|entries| - 1], token)
  }

  /** The first exact name decides; without one, the last name the token is a prefix of. */
  ghost function Lookup(table: seq<ValueName>, token: string): Option<Word>
    requires IsTable(table)
  {
    var entries := table[..TableEnd(table)];
    if FirstExact(entries, token).Some? then FirstExact(entries, token) else LastPrefix(entries, token)
  }

  lemma {:induction false} FirstExactAt(entries: seq<ValueName>, token: string, k: nat)
    requires k < |entries| && Exact(entries[k], token)
    requires forall j :: 0 <= j < k ==> !Exact(entries[j], token)
    ensures FirstExact(entries, token) == Some(entries[k].value)
  {
    if k > 0 {
      assert entries[1..][k - 1] == entries[k];
      FirstExactAt(entries[1..], token, k - 1);
    }
  }

  lemma {:induction false} NoneExact(entries: seq<ValueName>, token: string)
    requires forall j :: 0 <= j < |entries| ==> !Exact(entries[j], token)
    ensures FirstExact(entries, token) == None
  {
    if entries != [] {
      NoneExact(entries[1..], token);
    }
  }

  /** A name of the table gives its value, whatever other names it is a prefix of. */
  lemma LookupOfName(table: seq<ValueName>, k: nat)
    requires IsTable(table) && k < TableEnd(table)
    requires forall j :: 0 <= j < k ==> !SameText(table[j].name, table[k].name)
    ensures Lookup(table, table[k].name) == Some(table[k].value)
  {
    FirstExactAt(table[..TableEnd(table)], table[k].name, k);
  }

  ghost predicate IsPrefixOfNone(entries: seq<ValueName>, token: string) {
    forall j :: 0 <= j < |entries| ==> !StartsWith(entries[j].name, token)
  }

  /** Without an exact name the last one the token is a prefix of decides; without one nothing is found. */
  lemma LookupOfPrefix(table: seq<ValueName>, token: string, k: nat)
    requires IsTable(table) && k < TableEnd(table)
    requires forall j :: 0 <= j < TableEnd(table) ==> !SameText(table[j].name, token)
    ensures StartsWith(table[k].name, token) && IsPrefixOfNone(table[k + 1..TableEnd(table)], token) ==>
      Lookup(table, token) == Some(table[k].value)
    ensures IsPrefixOfNone(table[..TableEnd(table)], token) ==> Lookup(table, token) == None
  {
    var entries := table[..TableEnd(table)];
    NoneExact(entries, token);
    assert entries[k + 1..] == table[k + 1..TableEnd(table)];
    LastPrefixAt(entries, token, k);
    hide StartsWith;
  }

  lemma {:induction false} LastPrefixAt(entries: seq<ValueName>, token: string, k: nat)
    requires k < |entries|
    ensures StartsWith(entries[k].name, token) && IsPrefixOfNone(entries[k + 1..], token) ==>
      LastPrefix(entries, token) == Some(entries[k].value)
    ensures IsPrefixOfNone(entries, token) ==> LastPrefix(entries, token) == None
  {
    hide StartsWith;
    var n := |entries| - 1;
    if k < n {
      assert entries[k + 1..][..n - k - 1] == entries[..n][k + 1..];
      assert entries[k + 1..][n - k - 1] == entries[n];
      LastPrefixAt(entries[..n], token, k);
    } else if n > 0 {
      LastPrefixAt(entries[..n], token, 0);
    }
  }

  /** The first exact name decides, even where the token is a prefix of other names. */
  lemma LookupOfExact(table: seq<ValueName>, token: string, k: nat)
    requires IsTable(table) && k < TableEnd(table) && SameText(table[k].name, token)
    requires forall j :: 0 <= j < k ==> !SameText(table[j].name, token)
    ensures Lookup(table, token) == Some(table[k].value)
  {
    FirstExactAt(table[..TableEnd(table)], token, k);
  }

  lemma LastPrefixStep(entries: seq<ValueName>, token: string, k: nat)
    requires k < |entries|
    ensures LastPrefix(entries[..0], token) == None && entries[..|entries|] == entries
    ensures LastPrefix(entries[..k + 1], token) ==
      if StartsWith(entries[k].name, token) then Some(entries[k].value) else LastPrefix(entries[..k], token)
  {
    assert entries[..k + 1][..k] == entries[..k];
  }

  /** Scans the table once, from the front. */
  method FindValue(table: seq<ValueName>, token: string) returns (r: Option<Word>)
    requires IsTable(table)
    ensures r == Lookup(table, token)
  {
    ghost var n := TableEnd(table);
    ghost var entries := table[..n];
    hide LastPrefix, FirstExact, StartsWith;
    LastPrefixStep(entries, token, 0);
    r := None;
    var vn := 0;
    while true
      invariant 0 <= vn < n
      invariant forall j :: 0 <= j < vn ==> !Exact(table[j], token)
      invariant r == LastPrefix(entries[..vn], token)
      decreases n - vn
    {
      LastPrefixStep(entries, token, vn);
      if StartsWith(table[vn].name, token) {
        r := Some(table[vn].value);
        if |table[vn].name| == |token| {
          FirstExactAt(entries, token, vn);
          return;
        }
      }
      vn := vn + 1;
      if table[vn - 1].value == {} {
        break;
      }
    }
    NoneExact(entries, token);
  }

  // ---- Lists of names ----

  /** The union of the values of all tokens, if every one is found. */
  ghost function EnumValue(table: seq<ValueName>, tokens: seq<string>): Option<Word>
    requires IsTable(table)
  {
    if tokens == [] then Some({})
    else
      var first, rest := Lookup(table, tokens[0]), EnumValue(table, tokens[1..]);
      if first.Some? && rest.Some? then Some(first.value + rest.value) else None
  }

  /** The values of the table entries at the given places. */
  function UnionOf(table: seq<ValueName>, places: seq<nat>): Word
    requires forall i :: 0 <= i < |places| ==> places[i] < |table|
  {
    if places == [] then {} else table[places[0]].value + UnionOf(table, places[1..])
  }

  lemma {:induction false} UnionHolds(table: seq<ValueName>, places: seq<nat>, bit: nat)
    requires forall i :: 0 <= i < |places| ==> places[i] < |table|
    ensures bit in UnionOf(table, places) <==> exists i :: 0 <= i < |places| && bit in table[places[i]].value
  {
    if places != [] {
      UnionHolds(table, places[1..], bit);
      if i :| 0 <= i < |places[1..]| && bit in table[places[1..][i]].value {
        assert places[i + 1] == places[1..][i];
      }
      if i :| 0 <= i < |places| && bit in table[places[i]].value {
        assert i > 0 ==> places[1..][i - 1] == places[i];
      }
    }
  }

  /** One token that is not found spoils the list. */
  lemma {:induction false} UnknownNameFails(table: seq<ValueName>, tokens: seq<string>)
    requires IsTable(table)
    ensures EnumValue(table, tokens) == None <==> exists i :: 0 <= i < |tokens| && Lookup(table, tokens[i]) == None
  {
    hide Lookup;
    if tokens != [] {
      UnknownNameFails(table, tokens[1..]);
      if i :| 0 <= i < |tokens[1..]| && Lookup(table, tokens[1..][i]) == None {
        assert tokens[i + 1] == tokens[1..][i];
      }
      if i :| 0 <= i < |tokens| && Lookup(table, tokens[i]) == None {
        assert i > 0 ==> tokens[1..][i - 1] == tokens[i];
      }
    }
  }

  /** No entry of the table hides another one of the same name. */
  ghost predicate NamesDistinct(table: seq<ValueName>)
    requires IsTable(table)
  {
    forall j, k :: 0 <= j < k < TableEnd(table) ==> !SameText(table[j].name, table[k].name)
  }

  /**
    Any list of names of the table, however its commas are written, stands for
    the union of their values, whatever prefixes other entries share with them.
   */
  lemma {:induction false} NameListsParse(table: seq<ValueName>, lead: nat, items: seq<(string, nat)>, places: seq<nat>)
    requires IsTable(table) && NamesDistinct(table) && WellWritten(items)
    requires |places| == |items|
    requires forall i :: 0 <= i < |items| ==> places[i] < TableEnd(table) && items[i].0 == table[places[i]].name
    ensures EnumValue(table, Tokens(Commas(lead) + Written(items))) == Some(UnionOf(table, places))
  {
    TokensOfWritten(lead, items);
    NamesHaveValues(table, Names(items), places);
  }

  lemma {:induction false} NamesHaveValues(table: seq<ValueName>, names: seq<string>, places: seq<nat>)
    requires IsTable(table) && NamesDistinct(table) && |places| == |names|
    requires forall i :: 0 <= i < |names| ==> places[i] < TableEnd(table) && names[i] == table[places[i]].name
    ensures EnumValue(table, names) == Some(UnionOf(table, places))
  {
    if names != [] {
      LookupOfName(table, places[0]);
      NamesHaveValues(table, names[1..], places[1..]);
    }
  }

  // ---- Numbers ----

  const ULONG_MAX := 0xFFFF_FFFF_FFFF_FFFF
  const TWO_32 := 0x1_0000_0000

  predicate IsSpace(c: char) {
    c == ' ' || '\t' <= c <= '\r'
  }

  predicate IsDigit(c: char) {
    '0' <= c <= '9'
  }

  function SkipSpace(s: string): (n: nat)
    ensures n <= |s|
  {
    if s != "" && IsSpace(s[0]) then 1 + SkipSpace(s[1..]) else 0
  }

  function DigitCount(s: string): (n: nat)
    ensures n <= |s| && forall i :: 0 <= i < n ==> IsDigit(s[i])
  {
    if s != "" && IsDigit(s[0]) then 1 + DigitCount(s[1..]) else 0
  }

  function DigitValue(c: char): (v: nat)
    requires IsDigit(c)
    ensures v < 10
  {
    c as int - '0' as int
  }

  function DecimalValue(digits: string): nat
    requires forall i :: 0 <= i < |digits| ==> IsDigit(digits[i])
  {
    if digits == "" then 0 else 10 * DecimalValue(digits[..|digits| - 1]) + DigitValue(digits[|digits| - 1])
  }

  /** A negative number in 64 bits. */
  function Negated(v: nat): (r: nat)
    requires v <= ULONG_MAX
    ensures r == if v > 0 then 0x1_0000_0000_0000_0000 - v else 0
  {
    (ULONG_MAX + 1 - v) % (ULONG_MAX + 1)
  }

  /** strtoul in base ten, with 64 bits: the value and how many characters were read. */
  function Strtoul(s: string): (r: (nat, nat))
    ensures r.1 <= |s|
  {
    var i := SkipSpace(s);
    var signed := i < |s| && (s[i] == '-' || s[i] == '+');
    var from := if signed then i + 1 else i;
    var n := DigitCount(s[from..]);
    if n == 0 then (0, 0)
    else
      var v := DecimalValue(s[from..][..n]);
      if v > ULONG_MAX then (ULONG_MAX, from + n)
      else if signed && s[i] == '-' then (Negated(v), from + n)
      else (v, from + n)
  }

  /** An unsigned long stored in an int of 32 bits. */
  function ToInt(v: nat): int {
    var low := v % TWO_32;
    if low < TWO_32 / 2 then low else low - TWO_32
  }

  /** The number a token stands for: all of it has to be read, and the int may not be negative. */
  function TokenId(token: string): Option<nat> {
    var (v, n) := Strtoul(token);
    if n == |token| && ToInt(v) >= 0 then Some(ToInt(v)) else None
  }

  /** `1 << id`, which C leaves undefined from 32 on: there `wide` says what the machine does. */
  function Bit(id: nat, wide: nat -> Word): Word {
    if id < 32 then {id} else wide(id)
  }

  function IdsValue(tokens: seq<string>, wide: nat -> Word): Option<Word> {
    if tokens == [] then Some({})
    else
      var first, rest := TokenId(tokens[0]), IdsValue(tokens[1..], wide);
      if first.Some? && rest.Some? then Some(Bit(first.value, wide) + rest.value) else None
  }

  function Decimal(n: nat): (s: string)
    ensures s != "" && forall i :: 0 <= i < |s| ==> IsDigit(s[i])
  {
    var last := ('0' as int + n % 10) as char;
    if n < 10 then [last] else Decimal(n / 10) + [last]
  }

  lemma {:induction false} DecimalRoundTrip(n: nat)
    ensures DecimalValue(Decimal(n)) == n
  {
    var s := Decimal(n);
    if n >= 10 {
      DecimalRoundTrip(n / 10);
      assert s[..|s| - 1] == Decimal(n / 10);
    } else {
      assert s[..|s| - 1] == "";
    }
  }

  lemma {:induction false} AllDigits(s: string)
    requires forall i :: 0 <= i < |s| ==> IsDigit(s[i])
    ensures DigitCount(s) == |s|
  {
    if s != "" {
      AllDigits(s[1..]);
    }
  }

  /** Blank, tabulators, line feed, form feed and carriage return. */
  const WHITE_SPACE: set<int> := {32, 9, 10, 11, 12, 13}

  lemma {:induction false} SpaceSkipped(spaces: string, s: string)
    requires forall i :: 0 <= i < |spaces| ==> spaces[i] as int in WHITE_SPACE
    requires s != "" && s[0] as int !in WHITE_SPACE
    ensures SkipSpace(spaces + s) == |spaces|
  {
    if spaces == "" {
      assert spaces + s == s;
    } else {
      assert (spaces + s)[1..] == spaces[1..] + s;
      SpaceSkipped(spaces[1..], s);
    }
  }

  /** Where the number starts in a text of white space, a sign and digits. */
  lemma NumberFound(spaces: string, sign: string, digits: string)
    requires forall i :: 0 <= i < |spaces| ==> spaces[i] as int in WHITE_SPACE
    requires sign in {"", "+", "-"} && digits != "" && forall i :: 0 <= i < |digits| ==> IsDigit(digits[i])
    ensures
      var token := spaces + sign + digits;
      && SkipSpace(token) == |spaces| && |spaces| < |token|
      && (sign == "" ==> IsDigit(token[|spaces|])) && (sign != "" ==> token[|spaces|] == sign[0])
      && token[|spaces| + |sign|..] == digits && digits[..|digits|] == digits && DigitCount(digits) == |digits|
  {
    var token := spaces + sign + digits;
    assert token == spaces + (sign + digits);
    assert (sign + digits)[0] == if sign == "" then digits[0] else sign[0];
    SpaceSkipped(spaces, sign + digits);
    AllDigits(digits);
  }

  /** strtoul, once it is known where the digits are. */
  lemma StrtoulReads(s: string, i: nat, signed: bool, digits: string)
    requires i == SkipSpace(s) < |s| && (signed <==> s[i] == '-' || s[i] == '+')
    requires s[if signed then i + 1 else i..] == digits && digits != "" && DigitCount(digits) == |digits|
    ensures forall k :: 0 <= k < |digits| ==> IsDigit(digits[k])
    ensures
      var v := DecimalValue(digits);
      Strtoul(s) == (if v > ULONG_MAX then ULONG_MAX else if s[i] == '-' then Negated(v) else v, |s|)
  {
    assert digits[..|digits|] == digits;
    hide SkipSpace, DigitCount, DecimalValue, IsDigit, Negated;
  }

  lemma StrtoulOfNumber(spaces: string, sign: string, digits: string)
    requires forall i :: 0 <= i < |spaces| ==> spaces[i] as int in WHITE_SPACE
    requires sign in {"", "+", "-"} && digits != "" && forall i :: 0 <= i < |digits| ==> IsDigit(digits[i])
    ensures
      var n := DecimalValue(digits);
      var v := if n > 0xFFFF_FFFF_FFFF_FFFF then 0xFFFF_FFFF_FFFF_FFFF
               else if sign == "-" && n > 0 then 0x1_0000_0000_0000_0000 - n
               else n;
      Strtoul(spaces + sign + digits) == (v, |spaces + sign + digits|)
  {
    NumberFound(spaces, sign, digits);
    StrtoulReads(spaces + sign + digits, |spaces|, sign != "", digits);
    hide SkipSpace, DigitCount, DecimalValue, Strtoul, Negated, IsDigit;
  }

  lemma TokenIdIs(token: string)
    requires Strtoul(token).1 == |token|
    ensures
      var v := Strtoul(token).0;
      TokenId(token) == if v % 0x1_0000_0000 < 0x8000_0000 then Some(v % 0x1_0000_0000) else None
  {
    hide Strtoul;
  }

  /**
    What strtoul and the int it is stored in make of white space, a sign and a
    decimal number: negative numbers wrap around 64 bits, too large ones stop
    at the end, and of either the low 32 bits have to be a positive int.
   */
  lemma TokenIdOfNumber(spaces: string, sign: string, n: nat)
    requires forall i :: 0 <= i < |spaces| ==> spaces[i] as int in WHITE_SPACE
    requires sign in {"", "+", "-"}
    ensures
      var v := if n > 0xFFFF_FFFF_FFFF_FFFF then 0xFFFF_FFFF_FFFF_FFFF
               else if sign == "-" && n > 0 then 0x1_0000_0000_0000_0000 - n
               else n;
      TokenId(spaces + sign + Decimal(n)) ==
        if v % 0x1_0000_0000 < 0x8000_0000 then Some(v % 0x1_0000_0000) else None
  {
    StrtoulOfNumber(spaces, sign, Decimal(n));
    DecimalRoundTrip(n);
    TokenIdIs(spaces + sign + Decimal(n));
    hide Decimal, DecimalValue, Strtoul, TokenId;
  }

  /** A number printed in decimal is read back. */
  lemma TokenIdOfDecimal(n: nat)
    requires n < TWO_32 / 2
    ensures TokenId(Decimal(n)) == Some(n)
  {
    assert n < 0x8000_0000;
    hide *;
    WithoutSign(Decimal(n));
    SmallModulo(n);
    TokenIdOfNumber("", "", n);
  }

  lemma WithoutSign(digits: string)
    ensures "" + "" + digits == digits
  {
  }

  lemma SmallModulo(n: nat)
    ensures n < 0x1_0000_0000 ==> n % 0x1_0000_0000 == n
  {
  }

  function BitsOf(ids: seq<nat>): Word {
    if ids == [] then {} else {ids[0]} + BitsOf(ids[1..])
  }

  lemma {:induction false} BitsOfIds(ids: seq<nat>, id: nat)
    ensures id in BitsOf(ids) <==> id in ids
  {
    if ids != [] {
      assert ids == [ids[0]] + ids[1..];
      BitsOfIds(ids[1..], id);
    }
  }

  /**
    Any list of numbers below 32, however its commas are written, stands for
    exactly the bits of those numbers.
   */
  lemma IdListsParse(lead: nat, items: seq<(string, nat)>, ids: seq<nat>, wide: nat -> Word)
    requires |ids| == |items|
    requires forall i :: 0 <= i < |ids| ==> ids[i] < 32 && items[i].0 == Decimal(ids[i])
    requires forall i :: 0 <= i < |items| - 1 ==> items[i].1 > 0
    ensures IdsValue(Tokens(Commas(lead) + Written(items)), wide) == Some(BitsOf(ids))
  {
    TokensOfWritten(lead, items);
    DecimalsHaveBits(Names(items), ids, wide);
  }

  lemma {:induction false} DecimalsHaveBits(names: seq<string>, ids: seq<nat>, wide: nat -> Word)
    requires |ids| == |names|
    requires forall i :: 0 <= i < |ids| ==> ids[i] < 32 && names[i] == Decimal(ids[i])
    ensures IdsValue(names, wide) == Some(BitsOf(ids))
  {
    if ids != [] {
      hide TokenId, Decimal;
      TokenIdOfDecimal(ids[0]);
      DecimalsHaveBits(names[1..], ids[1..], wide);
    }
  }

  // ---- The option parsers ----

  /** The tokens that are left from a place in the text on. */
  function TokensFrom(s: string, at: nat): seq<string>
    requires at <= |s|
  {
    Tokens(s[at..])
  }

  function TokenAt(s: string, at: nat): (t: string)
    requires at <= |s|
    ensures at + |t| <= |s| && t == s[at..at + |t|]
    ensures at + |t| < |s| ==> s[at + |t|] == ','
  {
    s[at..][..TokenLength(s[at..])]
  }

  lemma TokensFromStart(s: string)
    ensures TokensFrom(s, 0) == Tokens(s) && TokensFrom(s, |s|) == []
  {
    assert s[0..] == s;
  }

  lemma TokensSkipComma(s: string, at: nat)
    requires at < |s| && s[at] == ','
    ensures TokensFrom(s, at) == TokensFrom(s, at + 1)
  {
    assert s[at..][1..] == s[at + 1..];
  }

  lemma TokensTake(s: string, at: nat)
    requires at < |s| && s[at] != ','
    ensures TokenAt(s, at) != ""
    ensures TokensFrom(s, at) == [TokenAt(s, at)] + TokensFrom(s, at + |TokenAt(s, at)|)
  {
    assert s[at..][TokenLength(s[at..])..] == s[at + TokenLength(s[at..])..];
  }

  /** The result of a list of which a first part stands for v. */
  function Plus(v: Word, rest: Option<Word>): Option<Word> {
    match rest
    case Some(w) => Some(v + w)
    case None => None
  }

  lemma PlusLaws(v: Word, w: Word, rest: Option<Word>)
    ensures Plus({}, rest) == rest && Plus(v, Plus(w, rest)) == Plus(v + w, rest)
  {
    if rest.Some? {
      assert v + (w + rest.value) == v + w + rest.value;
      assert {} + rest.value == rest.value;
    }
  }

  lemma PlusNone(v: Word)
    ensures Plus(v, None) == None
  {
  }

  lemma PlusSome(v: Word)
    ensures Plus(v, Some({})) == Some(v)
  {
    assert v + {} == v;
  }

  /** What the list stands for, one token taken. */
  lemma EnumTake(table: seq<ValueName>, token: string, rest: seq<string>)
    requires IsTable(table)
    ensures EnumValue(table, [token] + rest) ==
      if Lookup(table, token).None? then None else Plus(Lookup(table, token).value, EnumValue(table, rest))
    ensures EnumValue(table, []) == Some({})
  {
  }

  lemma IdsTake(token: string, rest: seq<string>, wide: nat -> Word)
    ensures IdsValue([token] + rest, wide) ==
      if TokenId(token).None? then None else Plus(Bit(TokenId(token).value, wide), IdsValue(rest, wide))
    ensures IdsValue([], wide) == Some({})
  {
  }

  /** The text of a C string in a buffer: everything before the first NUL. */
  function CString(buffer: seq<char>): string {
    if buffer == [] || buffer[0] == '\0' then "" else [buffer[0]] + CString(buffer[1..])
  }

  lemma {:induction false} CStringEnds(text: string, rest: seq<char>)
    requires '\0' !in text && rest != [] && rest[0] == '\0'
    ensures CString(text + rest) == text
  {
    if text == "" {
      assert text + rest == rest;
    } else {
      assert (text + rest)[1..] == text[1..] + rest;
      CStringEnds(text[1..], rest);
    }
  }

  /** From a place on, the buffer still holds the text and its NUL. */
  ghost predicate Buffered(abuf: array<char>, arg: string, at: nat)
    reads abuf
  {
    at <= |arg| && abuf.Length == |arg| + 1 && abuf[at..] == arg[at..] + ['\0'] && '\0' !in arg
  }

  /** Advances over a run of commas. */
  method AdvanceOverCommas(arg: string, from: nat) returns (at: nat)
    requires from <= |arg|
    ensures from <= at <= |arg| && (at < |arg| ==> arg[at] != ',')
    ensures TokensFrom(arg, at) == TokensFrom(arg, from)
  {
    hide TokensFrom;
    at := from;
    while at < |arg| && arg[at] == ','
      invariant from <= at <= |arg|
      invariant TokensFrom(arg, at) == TokensFrom(arg, from)
    {
      TokensSkipComma(arg, at);
      at := at + 1;
    }
  }

  method AdvanceInBuffer(abuf: array<char>, arg: string, from: nat) returns (at: nat)
    requires Buffered(abuf, arg, from)
    ensures from <= at && Buffered(abuf, arg, at) && (at < |arg| ==> arg[at] != ',')
    ensures TokensFrom(arg, at) == TokensFrom(arg, from)
  {
    hide TokensFrom;
    at := from;
    while abuf[at] == ','
      invariant from <= at && Buffered(abuf, arg, at)
      invariant TokensFrom(arg, at) == TokensFrom(arg, from)
      decreases |arg| - at
    {
      TokensSkipComma(arg, at);
      at := at + 1;
    }
  }

  lemma CutReads(buffer: seq<char>, at: nat, token: string)
    requires '\0' !in token && at + |token| < |buffer|
    requires buffer[at..at + |token|] == token && buffer[at + |token|] == '\0'
    ensures CString(buffer[at..]) == token
  {
    assert buffer[at..] == token + buffer[at + |token|..];
    CStringEnds(token, buffer[at + |token|..]);
  }

  lemma BufferedReads(abuf: array<char>, arg: string, at: nat)
    requires Buffered(abuf, arg, at)
    ensures abuf[at..|arg|] == arg[at..] && abuf[|arg|] == '\0'
  {
    assert abuf[at..][|arg| - at] == '\0';
    assert abuf[at..][..|arg| - at] == arg[at..];
  }

  /** Ends the token that starts here with a NUL in place of its comma and gives the place behind it. */
  method CutToken(abuf: array<char>, arg: string, at: nat) returns (next: nat)
    requires Buffered(abuf, arg, at) && at < |arg| && arg[at] != ','
    modifies abuf
    ensures at < next && Buffered(abuf, arg, next)
    ensures CString(abuf[at..]) == TokenAt(arg, at)
    ensures TokensFrom(arg, next) == TokensFrom(arg, at + |TokenAt(arg, at)|)
  {
    hide TokensFrom, CString, TokenLength;
    BufferedReads(abuf, arg, at);
    TokensTake(arg, at);
    var len := TokenLength(abuf[at..|arg|]);
    ghost var token := TokenAt(arg, at);
    assert |token| == len && abuf[at..at + len] == token;
    next := at + len;
    if next < |arg| {
      TokensSkipComma(arg, next);
      abuf[next] := '\0';
      assert abuf[next + 1..] == arg[next + 1..] + ['\0'];
      next := next + 1;
    } else {
      assert abuf[next..] == arg[next..] + ['\0'];
    }
    assert abuf[at..at + len] == token;
    CutReads(abuf[..], at, token);
  }

  datatype Parser = Enum(table: seq<ValueName>) | Ids

  /** What a list option stands for, if it is valid. */
  ghost function Meaning(parser: Parser, arg: string, wide: nat -> Word): Option<Word>
    requires parser.Enum? ==> IsTable(parser.table)
  {
    if SameText(arg, "help") then None
    else match parser
         case Enum(table) => EnumValue(table, Tokens(arg))
         case Ids => IdsValue(Tokens(arg), wide)
  }

  /** Reads the number at a token, and if it is one goes on to the next token. */
  method NextId(abuf: array<char>, arg: string, at: nat, ghost wide: nat -> Word) returns (ret: Option<nat>, next: nat)
    requires Buffered(abuf, arg, at) && at < |arg| && arg[at] != ','
    modifies abuf
    ensures ret.None? ==> IdsValue(TokensFrom(arg, at), wide) == None
    ensures ret.Some? ==> at < next && Buffered(abuf, arg, next) && (next < |arg| ==> arg[next] != ',')
    ensures ret.Some? ==>
      IdsValue(TokensFrom(arg, at), wide) == Plus(Bit(ret.value, wide), IdsValue(TokensFrom(arg, next), wide))
  {
    hide IdsValue, Plus, TokensFrom, TokenAt, TokenId, Bit;
    ghost var token := TokenAt(arg, at);
    TokensTake(arg, at);
    IdsTake(token, TokensFrom(arg, at + |token|), wide);
    next := CutToken(abuf, arg, at);
    ret := TokenId(CString(abuf[at..]));
    if ret.Some? {
      next := AdvanceInBuffer(abuf, arg, next);
    }
  }

  class AnyOption {
    const parser: Parser
    const flag: Word
    var value: Word
    var flags: Option<Word>  // an option may do without

    constructor (parser: Parser, flag: Word, flags: Option<Word>)
      ensures this.parser == parser && this.flag == flag && value == {} && this.flags == flags
    {
      this.parser, this.flag, value, this.flags := parser, flag, {}, flags;
    }

    method ParseEnum(arg: string) returns (ok: bool)
      requires parser.Enum? && IsTable(parser.table)
      modifies this`value
      ensures ok <==> Meaning(parser, arg, _ => {}).Some?
      ensures value == if ok then Meaning(parser, arg, _ => {}).value else old(value)
    {
      hide EnumValue, Plus, TokensFrom, TokenAt, Tokens, Lookup;
      var val: Word := {};
      if SameText(arg, "help") {
        return false;
      }
      var table := parser.table;
      ghost var goal := EnumValue(table, Tokens(arg));
      TokensFromStart(arg);
      PlusLaws({}, {}, goal);
      var at := AdvanceOverCommas(arg, 0);
      while at < |arg|
        invariant at <= |arg| && (at < |arg| ==> arg[at] != ',')
        invariant goal == Plus(val, EnumValue(table, TokensFrom(arg, at))) && value == old(value)
        decreases |arg| - at
      {
        var token := TokenAt(arg, at);
        TokensTake(arg, at);
        EnumTake(table, token, TokensFrom(arg, at + |token|));
        var v := FindValue(table, token);
        if v.None? {
          PlusNone(val);
          return false;
        }
        PlusLaws(val, v.value, EnumValue(table, TokensFrom(arg, at + |token|)));
        val := val + v.value;
        at := AdvanceOverCommas(arg, at + |token|);
      }
      EnumTake(table, "", []);
      PlusSome(val);
      value := val;
      return true;
    }

    method ParseIds(arg: string, wide: nat -> Word) returns (ok: bool)
      requires '\0' !in arg
      modifies this`value
      ensures ok <==> Meaning(Ids, arg, wide).Some?
      ensures value == if ok then Meaning(Ids, arg, wide).value else old(value)
    {
      hide IdsValue, Plus, TokensFrom, TokenAt, Tokens, TokenId, Bit;
      var val: Word := {};
      var n := |arg|;
      var abuf := new char[n + 1](i requires 0 <= i <= n => if i < n then arg[i] else '\0');
      if SameText(arg, "help") {
        return false;
      }
      ghost var goal := IdsValue(Tokens(arg), wide);
      TokensFromStart(arg);
      PlusLaws({}, {}, goal);
      var at := AdvanceInBuffer(abuf, arg, 0);
      while abuf[at] != '\0'
        invariant Buffered(abuf, arg, at) && (at < n ==> arg[at] != ',')
        invariant goal == Plus(val, IdsValue(TokensFrom(arg, at), wide)) && value == old(value)
        decreases n - at
      {
        var ret, next := NextId(abuf, arg, at, wide);
        if ret.None? {
          PlusNone(val);
          return false;
        }
        PlusLaws(val, Bit(ret.value, wide), IdsValue(TokensFrom(arg, next), wide));
        val := val + Bit(ret.value, wide);
        at := next;
      }
      IdsTake("", [], wide);
      PlusSome(val);
      value := val;
      return true;
    }

    /** Nothing is written unless the whole list is valid; then the value and the flag are. */
    method ParseOption(arg: string, wide: nat -> Word) returns (ok: bool)
      requires parser.Enum? ==> IsTable(parser.table)
      requires '\0' !in arg
      modifies this
      ensures ok <==> Meaning(parser, arg, wide).Some?
      ensures SameText(arg, "help") ==> !ok
      ensures ok ==> value == Meaning(parser, arg, wide).value
      ensures ok ==> flags == if old(flags).Some? then Some(old(flags).value + flag) else None
      ensures !ok ==> value == old(value) && flags == old(flags)
    {
      match parser {
        case Enum(_) => ok := ParseEnum(arg);
        case Ids => ok := ParseIds(arg, wide);
      }
      if !ok {
        return false;
      }
      if flags.Some? {
        flags := Some(flags.value + flag);
      }
      return true;
    }
  }
}
