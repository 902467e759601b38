/**
  A reader for adjacent C string literals, and the layout of C text.

  The reader is an automaton over characters.  It follows ISO C11: escape
  sequences are resolved inside each literal by longest match (sections 6.4.4.4
  and 5.1.1.2, phase 5) and adjacent literals are joined afterwards (section
  6.4.5 and phase 6).  It performs no trigraph replacement.
 */
module CLiteral {
  import opened Basics

  datatype Mode =
    | Between                        // outside a literal: white space, another literal, or ';'
    | Plain                          // inside a literal, no escape sequence open
    | Escape                         // just after a backslash
    | Octal(digits: nat, value: nat) // inside an octal escape of so many digits
    | Hex(digits: nat, value: nat)   // inside a hexadecimal escape
    | Done                           // past the ';' that ends the initialiser
    | Bad                            // not a C initialiser

  datatype Reader = Reader(mode: Mode, bytes: seq<byte>)

  const BEGIN := Reader(Between, [])

  predicate IsOctalDigit(c: char) {
    '0' <= c <= '7'
  }

  function HexDigit(c: char): (r: Option<int>)
    ensures r.Some? ==> 0 <= r.value < 16
  {
    if '0' <= c <= '9' then Some(c as int - '0' as int)
    else if 'a' <= c <= 'f' then Some(c as int - 'a' as int + 10)
    else if 'A' <= c <= 'F' then Some(c as int - 'A' as int + 10)
    else None
  }

  function SimpleEscape(c: char): Option<byte> {
    match c
    case '"' => Some(34)
    case '\'' => Some(39)
    case '?' => Some(63)
    case '\\' => Some(92)
    case 'a' => Some(7)
    case 'b' => Some(8)
    case 'f' => Some(12)
    case 'n' => Some(10)
    case 'r' => Some(13)
    case 't' => Some(9)
    case 'v' => Some(11)
    case _ => None
  }

  // An escape that names a value outside the range of unsigned char violates a constraint.
  function EndEscape(r: Reader): Reader {
    match r.mode
    case Octal(_, v) => if v < 256 then Reader(Plain, r.bytes + [v]) else r.(mode := Bad)
    case Hex(n, v) => if n > 0 && v < 256 then Reader(Plain, r.bytes + [v]) else r.(mode := Bad)
    case _ => r
  }

  function StepPlain(r: Reader, c: char): Reader {
    if c == '"' then r.(mode := Between)
    else if c == '\\' then r.(mode := Escape)
    else if c == '\n' || c as int >= 256 then r.(mode := Bad)
    else Reader(Plain, r.bytes + [c as int])
  }

  function StepEscape(r: Reader, c: char): Reader {
    if IsOctalDigit(c) then r.(mode := Octal(1, c as int - '0' as int))
    else if c == 'x' then r.(mode := Hex(0, 0))
    else match SimpleEscape(c)
         case Some(b) => Reader(Plain, r.bytes + [b])
         case None => r.(mode := Bad)
  }

  function Step(r: Reader, c: char): Reader {
    match r.mode
    case Between =>
      if c == '"' then r.(mode := Plain)
      else if c == ';' then r.(mode := Done)
      else if c == ' ' || c == '\n' || c == '\t' then r
      else r.(mode := Bad)
    case Plain => StepPlain(r, c)
    case Escape => StepEscape(r, c)
    case Octal(n, v) =>
      if n < 3 && IsOctalDigit(c) then r.(mode := Octal(n + 1, 8 * v + (c as int - '0' as int)))
      else if EndEscape(r).mode.Plain? then StepPlain(EndEscape(r), c)
      else EndEscape(r)
    case Hex(n, v) =>
      if HexDigit(c).Some? then r.(mode := Hex(n + 1, 16 * v + HexDigit(c).value))
      else if EndEscape(r).mode.Plain? then StepPlain(EndEscape(r), c)
      else EndEscape(r)
    case Done => r
    case Bad => r
  }

  function Run(r: Reader, text: string): Reader {
    if text == "" then r else Step(Run(r, text[..|text| - 1]), text[|text| - 1])
  }

  /** The bytes an initialiser of adjacent string literals stands for, without the final NUL. */
  function Read(text: string): Option<seq<byte>> {
    var r := Run(BEGIN, text);
    if r.mode.Done? then Some(r.bytes) else None
  }

  lemma {:induction false} RunAppend(r: Reader, a: string, b: string)
    ensures Run(r, a + b) == Run(Run(r, a), b)
  {
    if b == "" {
      assert a + b == a;
    } else {
      var n := |b| - 1;
      assert (a + b)[..|a + b| - 1] == a + b[..n];
      RunAppend(r, a, b[..n]);
    }
  }

  lemma RunSnoc(r: Reader, a: string, c: char)
    ensures Run(r, a + [c]) == Step(Run(r, a), c)
  {
    assert (a + [c])[..|a|] == a;
  }

  // ---- Examples of what the standard asks of a reader ----

  lemma Advances(text: string, k: nat, before: Reader, after: Reader)
    requires k < |text| && Run(BEGIN, text[..k]) == before && Step(before, text[k]) == after
    ensures Run(BEGIN, text[..k + 1]) == after && text[..|text|] == text
  {
    assert text[..k + 1][..k] == text[..k];
  }

  /** An octal escape takes at most three digits, and as many as it can get. */
  lemma LongestMatch()
    ensures Read("\"\\1011\";") == Some([65, 49])
  {
    var text := "\"\\1011\";";
    assert Run(BEGIN, text[..0]) == BEGIN;
    hide Run;
    Advances(text, 0, BEGIN, Reader(Plain, []));
    Advances(text, 1, Reader(Plain, []), Reader(Escape, []));
    Advances(text, 2, Reader(Escape, []), Reader(Octal(1, 1), []));
    Advances(text, 3, Reader(Octal(1, 1), []), Reader(Octal(2, 8), []));
    Advances(text, 4, Reader(Octal(2, 8), []), Reader(Octal(3, 65), []));
    Advances(text, 5, Reader(Octal(3, 65), []), Reader(Plain, [65, 49]));
    Advances(text, 6, Reader(Plain, [65, 49]), Reader(Between, [65, 49]));
    Advances(text, 7, Reader(Between, [65, 49]), Reader(Done, [65, 49]));
  }

  /** It ends with its literal, before adjacent literals are joined. */
  lemma EscapesBeforeJoining()
    ensures Read("\"\\0\"\"1\";") == Some([0, 49])
  {
    var text := "\"\\0\"\"1\";";
    assert Run(BEGIN, text[..0]) == BEGIN;
    hide Run;
    Advances(text, 0, BEGIN, Reader(Plain, []));
    Advances(text, 1, Reader(Plain, []), Reader(Escape, []));
    Advances(text, 2, Reader(Escape, []), Reader(Octal(1, 0), []));
    Advances(text, 3, Reader(Octal(1, 0), []), Reader(Between, [0]));
    Advances(text, 4, Reader(Between, [0]), Reader(Plain, [0]));
    Advances(text, 5, Reader(Plain, [0]), Reader(Plain, [0, 49]));
    Advances(text, 6, Reader(Plain, [0, 49]), Reader(Between, [0, 49]));
    Advances(text, 7, Reader(Between, [0, 49]), Reader(Done, [0, 49]));
  }

  /** Letters and hexadecimal digits name bytes, too. */
  lemma OtherEscapes()
    ensures Read("\"\\n\\x41\";") == Some([10, 65])
  {
    var text := "\"\\n\\x41\";";
    assert Run(BEGIN, text[..0]) == BEGIN;
    hide Run;
    Advances(text, 0, BEGIN, Reader(Plain, []));
    Advances(text, 1, Reader(Plain, []), Reader(Escape, []));
    Advances(text, 2, Reader(Escape, []), Reader(Plain, [10]));
    Advances(text, 3, Reader(Plain, [10]), Reader(Escape, [10]));
    Advances(text, 4, Reader(Escape, [10]), Reader(Hex(0, 0), [10]));
    Advances(text, 5, Reader(Hex(0, 0), [10]), Reader(Hex(1, 4), [10]));
    Advances(text, 6, Reader(Hex(1, 4), [10]), Reader(Hex(2, 65), [10]));
    Advances(text, 7, Reader(Hex(2, 65), [10]), Reader(Between, [10, 65]));
    Advances(text, 8, Reader(Between, [10, 65]), Reader(Done, [10, 65]));
  }

  /** A value of more than a byte is an error. */
  lemma TooLarge()
    ensures Read("\"\\400\";") == None
  {
    var text := "\"\\400\";";
    assert Run(BEGIN, text[..0]) == BEGIN;
    hide Run;
    Advances(text, 0, BEGIN, Reader(Plain, []));
    Advances(text, 1, Reader(Plain, []), Reader(Escape, []));
    Advances(text, 2, Reader(Escape, []), Reader(Octal(1, 4), []));
    Advances(text, 3, Reader(Octal(1, 4), []), Reader(Octal(2, 32), []));
    Advances(text, 4, Reader(Octal(2, 32), []), Reader(Octal(3, 256), []));
    Advances(text, 5, Reader(Octal(3, 256), []), Reader(Bad, []));
    Advances(text, 6, Reader(Bad, []), Reader(Bad, []));
  }

  // ---- Layout ----

  /** The number of characters on the last line of a text. */
  function Column(text: string): nat {
    if text == "" || text[|text| - 1] == '\n' then 0 else 1 + Column(text[..|text| - 1])
  }

  /** The longest line of a text. */
  function Width(text: string): nat {
    if text == "" then 0
    else
      var before := Width(text[..|text| - 1]);
      if Column(text) > before then Column(text) else before
  }

  lemma ColumnSnoc(a: string, c: char)
    ensures Column(a + [c]) == if c == '\n' then 0 else Column(a) + 1
    ensures Width(a + [c]) == if Column(a + [c]) > Width(a) then Column(a + [c]) else Width(a)
  {
    assert (a + [c])[..|a|] == a;
  }

  lemma {:induction false} ColumnAppend(a: string, b: string)
    requires '\n' !in b
    ensures Column(a + b) == Column(a) + |b|
    ensures Width(a + b) <= if Column(a) + |b| > Width(a) then Column(a) + |b| else Width(a)
  {
    if b == "" {
      assert a + b == a;
    } else {
      var n := |b| - 1;
      assert a + b == (a + b[..n]) + [b[n]];
      ColumnAppend(a, b[..n]);
      ColumnSnoc(a + b[..n], b[n]);
    }
  }

  /** Width is what it says: the column reached by some prefix, and no prefix reaches a higher one. */
  lemma {:induction false} WidthIsLongestLine(text: string, n: nat)
    requires n <= |text|
    ensures Column(text[..n]) <= Width(text)
    ensures exists k :: 0 <= k <= |text| && Column(text[..k]) == Width(text)
  {
    assert text[..|text|] == text;
    if text != "" {
      var t := text[..|text| - 1];
      WidthIsLongestLine(t, if n < |text| then n else 0);
      var k :| 0 <= k <= |t| && Column(t[..k]) == Width(t);
      assert t[..k] == text[..k];
      if n < |text| {
        assert t[..n] == text[..n];
      }
    }
  }
}
