/**
  The data writer of tools/directfb-csource.c: bytes are printed as adjacent C
  string literals, with a hidden `pad` state that keeps a short octal escape
  from swallowing the digit that follows it, and a `pos` state that breaks lines.
 */
module CSourceWriter {
  import opened Basics
  import opened CLiteral

  function OctalText(d: nat): (s: string)
    ensures 1 <= |s| && '\n' !in s
    ensures d < 8 ==> |s| == 1
    ensures 8 <= d < 64 ==> |s| == 2
    ensures 64 <= d < 512 ==> |s| == 3
  {
    var last := ('0' as int + d % 8) as char;
    if d < 8 then [last] else OctalText(d / 8) + [last]
  }

  /** The digits of a byte in octal, without leading zeros. */
  lemma OctalDigits(d: byte)
    ensures
      var low, middle := ('0' as int + d % 8) as char, ('0' as int + d / 8 % 8) as char;
      var high := ('0' as int + d / 64) as char;
      OctalText(d) == if d < 8 then [low] else if d < 64 then [middle, low] else [high, middle, low]
  {
    assert d / 8 / 8 == d / 64;
    if d >= 64 {
      assert OctalText(d / 64) == [('0' as int + d / 64) as char];
      assert OctalText(d / 8) == OctalText(d / 64) + [('0' as int + d / 8 % 8) as char];
    }
  }

  /** An octal escape is read back as its value, whatever was open before it. */
  lemma {:induction false} OctalRoundTrip(r: Reader, d: nat)
    requires r.mode.Escape? && d < 512
    ensures Run(r, OctalText(d)) == r.(mode := Octal(|OctalText(d)|, d))
  {
    var c := ('0' as int + d % 8) as char;
    if d < 8 {
      RunSnoc(r, "", c);
      assert OctalText(d) == "" + [c];
    } else {
      OctalRoundTrip(r, d / 8);
      RunSnoc(r, OctalText(d / 8), c);
      hide Run;
      assert OctalText(d) == OctalText(d / 8) + [c];
      assert IsOctalDigit(c) && 8 * (d / 8) + d % 8 == d;
    }
  }

  /** A closing quote, a fresh line and an opening quote only end the escape that is open. */
  lemma LineBreakIsSilent(r: Reader)
    requires EndEscape(r).mode.Plain?
    ensures Run(r, "\"\n  \"") == EndEscape(r)
  {
    assert "\"\n  \"" == "\"" + "\n" + " " + " " + "\"";
    RunSnoc(r, "", '"');
    assert "" + ['"'] == "\"";
    RunSnoc(r, "\"", '\n');
    RunSnoc(r, "\"" + "\n", ' ');
    RunSnoc(r, "\"" + "\n" + " ", ' ');
    RunSnoc(r, "\"" + "\n" + " " + " ", '"');
  }

  lemma RunPair(r: Reader, c: char, d: char)
    ensures Run(r, [c]) == Step(r, c)
    ensures Run(r, [c, d]) == Step(Step(r, c), d)
  {
    RunSnoc(r, "", c);
    assert "" + [c] == [c];
    RunSnoc(r, [c], d);
    assert [c] + [d] == [c, d];
  }

  /** Inside an open literal, in a state where more characters may follow. */
  predicate Ready(r: Reader) {
    (r.mode.Plain? || r.mode.Octal?) && EndEscape(r).mode.Plain?
  }

  /** The literal ends in an octal escape that one more octal digit would lengthen. */
  predicate Short(r: Reader) {
    r.mode.Octal? && r.mode.digits < 3
  }

  /** The bytes read so far, an open escape included. */
  function Decoded(r: Reader): seq<byte> {
    EndEscape(r).bytes
  }

  /** The reader r, having read `text`, has read the one byte d. */
  predicate Adds(r: Reader, text: string, d: byte) {
    var after := Run(r, text);
    Ready(after) && Decoded(after) == Decoded(r) + [d]
  }

  lemma EscapeAdds(r: Reader, d: byte)
    requires Ready(r)
    ensures Adds(r, "\\" + OctalText(d), d)
    ensures Short(Run(r, "\\" + OctalText(d))) <==> d < 64
  {
    RunAppend(r, "\\", OctalText(d));
    RunPair(r, '\\', '\\');
    OctalRoundTrip(Step(r, '\\'), d);
  }

  lemma QuotedAdds(r: Reader, c: char)
    requires Ready(r) && (c == '\\' || c == '"')
    ensures Adds(r, ['\\', c], c as int) && !Short(Run(r, ['\\', c]))
  {
    RunPair(r, '\\', c);
  }

  lemma SplitDigitAdds(r: Reader, c: char)
    requires Ready(r) && '0' <= c <= '9'
    ensures Adds(r, ['"', '"', c], c as int) && !Short(Run(r, ['"', '"', c]))
  {
    RunPair(r, '"', '"');
    RunSnoc(r, ['"', '"'], c);
    assert ['"', '"'] + [c] == ['"', '"', c];
  }

  /**
    A printable character may be printed as itself exactly when it would not
    lengthen an open escape: this is what `pad` and the split `""` are for.
   */
  lemma CharAdds(r: Reader, c: char)
    requires Ready(r) && 33 <= c as int <= 126 && c != '\\' && c != '"'
    ensures Adds(r, [c], c as int) <==> !(Short(r) && IsOctalDigit(c))
    ensures Adds(r, [c], c as int) ==> !Short(Run(r, [c]))
  {
    RunPair(r, c, c);
    if Short(r) && IsOctalDigit(c) {
      assert |EndEscape(Step(r, c)).bytes| <= |Decoded(r)|;
    }
  }

  const LINE_LIMIT := 76

  lemma OpeningReads()
    ensures Run(BEGIN, "  \"") == Reader(Plain, [])
    ensures Column("  \"") == Width("  \"") == 3
  {
    assert "  \"" == "  " + "\"";
    RunPair(BEGIN, ' ', ' ');
    RunSnoc(BEGIN, "  ", '"');
    ColumnAppend("", "  \"");
    assert "" + "  \"" == "  \"";
    ColumnSnoc("  ", '"');
  }

  /** Closing the literal and the definition turns what was read so far into the initialiser's value. */
  lemma ClosingReads(text: string)
    requires Ready(Run(BEGIN, text))
    requires Column(text) <= LINE_LIMIT - 2 && Width(text) <= LINE_LIMIT
    ensures Read(text + "\";\n\n") == Some(Decoded(Run(BEGIN, text)))
    ensures Width(text + "\";\n\n") <= LINE_LIMIT
  {
    var t := text + "\";";
    hide Run, Column, Width;
    RunAppend(BEGIN, text, "\";");
    RunPair(Run(BEGIN, text), '"', ';');
    ColumnAppend(text, "\";");
    RunSnoc(BEGIN, t, '\n');
    RunSnoc(BEGIN, t + "\n", '\n');
    ColumnSnoc(t, '\n');
    ColumnSnoc(t + "\n", '\n');
    assert text + "\";\n\n" == t + "\n" + "\n";
  }

  class CSourceData {
    var fp: string        // the stream written to
    var pos: int
    var pad: bool
    ghost var start: nat  // where in fp the current initialiser begins

    constructor ()
      ensures fp == "" && pos == 0 && !pad
    {
      fp, pos, pad, start := "", 0, false, 0;
    }

    /** What was printed before the current initialiser. */
    ghost function Head(): string
      reads this`fp, this`start
      requires start <= |fp|
    {
      fp[..start]
    }

    ghost function Text(): string
      reads this`fp, this`start
      requires start <= |fp|
    {
      fp[start..]
    }

    ghost function State(): Reader
      reads this`fp, this`start
      requires start <= |fp|
    {
      Run(BEGIN, Text())
    }

    /** The bytes a C compiler has seen so far in the initialiser being written. */
    ghost function Written(): seq<byte>
      reads this`fp, this`start
      requires start <= |fp|
    {
      Decoded(State())
    }

    ghost predicate ShortEscapeOpen()
      reads this`fp, this`start
      requires start <= |fp|
    {
      Short(State())
    }

    /** Inside a literal, with room for the closing quote and the semicolon on every line. */
    ghost predicate InLiteral()
      reads this`fp, this`start
    {
      && start <= |fp|
      && Ready(State())
      && Column(Text()) <= LINE_LIMIT - 2
      && Width(Text()) <= LINE_LIMIT - 1
    }

    /** Between two bytes: `pad` guards every short escape and `pos` is the true column. */
    ghost predicate Open()
      reads this
    {
      InLiteral() && (ShortEscapeOpen() ==> pad) && pos == Column(Text())
    }

    /** Prints the text of one byte. */
    method Print(text: string, ghost d: byte)
      requires InLiteral() && Adds(State(), text, d)
      requires '\n' !in text && Column(Text()) + |text| <= LINE_LIMIT - 2
      modifies this`fp
      ensures InLiteral() && Head() == old(Head()) && fp == old(fp) + text
      ensures State() == Run(old(State()), text) && Written() == old(Written()) + [d]
      ensures Column(Text()) == old(Column(Text())) + |text|
    {
      ghost var before := Text();
      fp := fp + text;
      assert Text() == before + text;
      RunAppend(BEGIN, before, text);
      ColumnAppend(before, text);
    }

    method BreakLine()
      requires Open()
      modifies this
      ensures Open() && !ShortEscapeOpen() && !pad && pos == 3 && start == old(start)
      ensures Head() == old(Head()) && Written() == old(Written()) && fp == old(fp) + "\"\n  \""
    {
      hide Run, Column, Width;
      ghost var before := Text();
      fp := fp + "\"\n  \"";
      pos := 3;
      pad := false;
      assert Text() == before + "\"\n  \"";
      RunAppend(BEGIN, before, "\"\n  \"");
      LineBreakIsSilent(Run(BEGIN, before));
      assert "\"\n  \"" == "\"" + "\n" + "  \"";
      ColumnSnoc(before, '"');
      ColumnSnoc(before + "\"", '\n');
      ColumnAppend(before + "\"" + "\n", "  \"");
      assert before + "\"" + "\n" + "  \"" == before + "\"\n  \"";
    }

    method SaveUchar(d: byte)
      requires Open()
      modifies this
      ensures Open() && start == old(start) && Head() == old(Head())
      ensures Written() == old(Written()) + [d]
      ensures pad <==> ShortEscapeOpen()
      // in octal, quoted, split off from a short escape, or as itself; past column 70 on a new line
      ensures fp == old(fp) + (if old(pos) > 70 then "\"\n  \"" else "") +
        if d < 33 || d > 126 then "\\" + OctalText(d)
        else if d == 34 || d == 92 then ['\\', d as char]
        else if old(pad) && old(pos) <= 70 && 48 <= d <= 57 then ['"', '"', d as char]
        else [d as char]
    {
      hide Run, Column, Width, OctalText, Decoded, Adds, Short, Ready;
      if pos > 70 {
        BreakLine();
      }
      ghost var r := State();
      var text, columns := [d as char], 1;
      if d < 33 || d > 126 {
        text, columns := "\\" + OctalText(d), 1 + 1 + (if d > 7 then 1 else 0) + (if d > 63 then 1 else 0);
        EscapeAdds(r, d);
      } else if d == '\\' as int {
        text, columns := ['\\', '\\'], 2;
        QuotedAdds(r, '\\');
      } else if d == '"' as int {
        text, columns := ['\\', '"'], 2;
        QuotedAdds(r, '"');
      } else if pad && '0' as int <= d <= '9' as int {
        text, columns := ['"', '"', d as char], 3;
        SplitDigitAdds(r, d as char);
      } else {
        CharAdds(r, d as char);
      }
      Print(text, d);
      pos := pos + columns;
      pad := (d < 33 || d > 126) && d < 64;
    }

    method BeginData(name: string)
      modifies this
      ensures Open() && Written() == []
      ensures Head() == old(fp) + "static const unsigned char " + name + "_data[] =\n"
    {
      fp := fp + "static const unsigned char " + name + "_data[] =\n";
      start := |fp|;
      fp := fp + "  \"";
      pos := 3;
      assert Text() == "  \"";
      OpeningReads();
    }

    /**
      Everything printed after the head line of the definition is read back by a
      C compiler as exactly the bytes given, and no line of it is longer than 76.
      The callers reject an empty `data` before they get here.
     */
    method DumpData(name: string, data: seq<byte>) returns (ghost initialiser: string)
      requires data != []
      modifies this
      ensures fp == old(fp) + "static const unsigned char " + name + "_data[] =\n" + initialiser
      ensures Read(initialiser) == Some(data)
      ensures Width(initialiser) <= LINE_LIMIT
    {
      hide Run, Column, Width, Decoded, Short, Read;
      BeginData(name);
      ghost var head := Head();
      var i := 0;
      while true
        invariant 0 <= i < |data|
        invariant Open() && Head() == head
        invariant Written() == data[..i]
        decreases |data| - i
      {
        SaveUchar(data[i]);
        assert data[..i + 1] == data[..i] + [data[i]];
        i := i + 1;
        if i == |data| {
          break;
        }
      }
      assert data[..i] == data;
      ClosingReads(Text());
      initialiser := Text() + "\";\n\n";
      fp := fp + "\";\n\n";
    }
  }
}
