/** The daemon's screen as 8 rows of 16 characters, each overwritten in place. */
module Screen {
  import opened Basics
  import opened Decimal
  import opened Ssd1306

  type Grid = seq<string>

  ghost predicate IsGrid(g: Grid) {
    |g| == PAGES && forall r :: 0 <= r < PAGES ==> |g[r]| == 16
  }

  /** The display's memory shows exactly the grid's glyphs. */
  ghost predicate Shows(font: seq<seq<byte>>, o: Oled, g: Grid)
    requires IsFont(font)
  {
    && Sound(o) && !o.argument && IsGrid(g)
    && forall r :: 0 <= r < PAGES ==> o.ram[COLUMNS * r..COLUMNS * (r + 1)] == Glyphs(font, g[r])
  }

  /** A row after `s` has been written over its start. */
  function Over(row: string, s: string): string
    requires |s| <= |row|
  {
    s + row[|s|..]
  }

  function Pad(s: string): string
    requires |s| <= 16
  {
    s + Spaces(16 - |s|)
  }

  function PutRow(g: Grid, r: nat, s: string): Grid
    requires IsGrid(g) && r < PAGES && |s| <= 16
  {
    g[r := Over(g[r], s)]
  }

  function Write(font: seq<seq<byte>>, r: nat, s: string): seq<Transfer>
    requires IsFont(font)
  {
    Position(0, r) + Datas(Glyphs(font, s))
  }

  lemma PaintedRow(ram: seq<byte>, at: nat, row: seq<byte>, bs: seq<byte>)
    requires at + COLUMNS <= |ram| && |bs| <= COLUMNS && ram[at..at + COLUMNS] == row
    ensures Paint(ram, at, bs)[at..at + COLUMNS] == bs + row[|bs|..]
  {
    var p := Paint(ram, at, bs);
    assert |p| == |ram|;
    assert p[at..at + COLUMNS] == bs + ram[at + |bs|..at + COLUMNS];
    assert row[|bs|..] == ram[at + |bs|..at + COLUMNS];
  }

  lemma OtherRow(ram: seq<byte>, at: nat, bs: seq<byte>, from: nat)
    requires at + COLUMNS <= |ram| && |bs| <= COLUMNS && from + COLUMNS <= |ram|
    requires from + COLUMNS <= at || at + COLUMNS <= from
    ensures Paint(ram, at, bs)[from..from + COLUMNS] == ram[from..from + COLUMNS]
  {
    var p := Paint(ram, at, bs);
    assert |p| == |ram|;
    forall i | from <= i < from + COLUMNS
      ensures p[i] == ram[i]
    {
      if i >= at + |bs| {
        assert p[i] == ram[at + |bs|..][i - (at + |bs|)];
      }
    }
  }

  lemma WriteShows(font: seq<seq<byte>>, o: Oled, g: Grid, r: nat, s: string)
    requires IsFont(font) && Shows(font, o, g) && r < PAGES && |s| <= 16
    ensures Shows(font, Run(o, Write(font, r, s)), PutRow(g, r, s))
  {
    PutsAt(font, o, 0, r, s);
    var after, h := Run(o, Write(font, r, s)), PutRow(g, r, s);
    var bs := Glyphs(font, s);
    forall q | 0 <= q < PAGES
      ensures after.ram[COLUMNS * q..COLUMNS * (q + 1)] == Glyphs(font, h[q])
    {
      if q == r {
        PaintedRow(o.ram, COLUMNS * r, Glyphs(font, g[r]), bs);
        assert g[r] == g[r][..|s|] + g[r][|s|..];
        GlyphsConcat(font, g[r][..|s|], g[r][|s|..]);
        GlyphsConcat(font, s, g[r][|s|..]);
      } else {
        OtherRow(o.ram, COLUMNS * r, bs, COLUMNS * q);
      }
    }
  }

  /** A sequence of row writes, in order. */
  datatype RowText = RowText(row: nat, text: string)

  ghost predicate Fit(ws: seq<RowText>) {
    forall i :: 0 <= i < |ws| ==> ws[i].row < PAGES && |ws[i].text| <= 16
  }

  function Writes(font: seq<seq<byte>>, ws: seq<RowText>): seq<Transfer>
    requires IsFont(font)
  {
    if ws == [] then [] else Writes(font, ws[..|ws| - 1]) + Write(font, ws[|ws| - 1].row, ws[|ws| - 1].text)
  }

  ghost function Put(g: Grid, ws: seq<RowText>): (h: Grid)
    requires IsGrid(g) && Fit(ws)
    ensures IsGrid(h)
  {
    if ws == [] then g else PutRow(Put(g, ws[..|ws| - 1]), ws[|ws| - 1].row, ws[|ws| - 1].text)
  }

  lemma {:induction false} WritesShow(font: seq<seq<byte>>, o: Oled, g: Grid, ws: seq<RowText>)
    requires IsFont(font) && Shows(font, o, g) && Fit(ws)
    ensures Shows(font, Run(o, Writes(font, ws)), Put(g, ws))
  {
    if ws == [] {
    } else {
      var init, last := ws[..|ws| - 1], ws[|ws| - 1];
      WritesShow(font, o, g, init);
      RunConcat(o, Writes(font, init), Write(font, last.row, last.text));
      WriteShows(font, Run(o, Writes(font, init)), Put(g, init), last.row, last.text);
    }
  }

  lemma {:induction false} PutConcat(g: Grid, a: seq<RowText>, b: seq<RowText>)
    requires IsGrid(g) && Fit(a) && Fit(b)
    ensures Fit(a + b) && Put(g, a + b) == Put(Put(g, a), b)
  {
    if b == [] {
      assert a + b == a;
    } else {
      var n := |b| - 1;
      PutConcat(g, a, b[..n]);
      assert (a + b)[..|a| + n] == a + b[..n];
    }
  }

  const HEADER: seq<RowText> := [RowText(0, "CSEL1a - SP.07"), RowText(1, "  Demo - SW"), RowText(2, "--------------")]
  const MODE: RowText := RowText(3, "Mode: Unknown")
  const RULE: RowText := RowText(4, "--------------")
  const TEMPERATURE: RowText := RowText(5, "Temp: xx'C")
  const FREQUENCY: RowText := RowText(6, "Freq: xxHz")
  const WELCOME: seq<RowText> := HEADER + [MODE] + [RULE] + [TEMPERATURE] + [FREQUENCY]

  datatype Sample = Sample(freq: int, tempMc: int, manual: bool)

  function Label(manual: bool): string {
    if manual then "Mode: Manual " else "Mode: Auto   "
  }

  function TempText(tempMc: int): string {
    if tempMc >= 0 then "Temp: " + Format(tempMc / 1000) + "'C  " else "Temp: --'C  "
  }

  function FreqText(freq: int): string {
    "Freq: " + Format(freq) + "Hz"
  }

  predicate FitsScreen(s: Sample) {
    |TempText(s.tempMc)| <= 16 && |FreqText(s.freq)| <= 16
  }

  function ModeRow(s: Sample): RowText {
    RowText(3, Label(s.manual))
  }

  function TempRow(s: Sample): RowText {
    RowText(5, TempText(s.tempMc))
  }

  function FreqRow(s: Sample): RowText {
    RowText(6, FreqText(s.freq))
  }

  function Refresh(s: Sample): seq<RowText> {
    [ModeRow(s), TempRow(s), FreqRow(s)]
  }

  /** Initialisation clears the display twice. */
  function Start(font: seq<seq<byte>>): seq<Transfer>
    requires IsFont(font)
  {
    Commands(INIT_COMMANDS) + Clear(font) + Clear(font)
  }

  /** The whole traffic: initialisation, the welcome screen, then each refresh. */
  function Traffic(font: seq<seq<byte>>, history: seq<Sample>): seq<Transfer>
    requires IsFont(font)
  {
    if history == [] then Start(font) + Writes(font, WELCOME)
    else Traffic(font, history[..|history| - 1]) + Writes(font, Refresh(history[|history| - 1]))
  }

  lemma Regroup(a: seq<Transfer>, b: seq<Transfer>, c: seq<Transfer>, d: seq<Transfer>)
    ensures a + b + c + d == a + (b + c + d)
  {
  }

  lemma HeaderIsPlain()
    ensures forall i :: 0 <= i < |HEADER| ==> NUL !in HEADER[i].text
  {
  }

  lemma FieldsArePlain()
    ensures NUL !in MODE.text && NUL !in RULE.text && NUL !in TEMPERATURE.text && NUL !in FREQUENCY.text
  {
  }

  lemma WelcomeIsPlain()
    ensures forall i :: 0 <= i < |WELCOME| ==> NUL !in WELCOME[i].text
  {
    assert forall i :: 0 <= i < |HEADER| ==> NUL !in HEADER[i].text by { HeaderIsPlain(); }
    FieldsArePlain();
  }

  lemma Printed(buffer: string, text: string)
    requires |buffer| == 20 && |text| < 20 && NUL !in text
    ensures CString(Snprintf(buffer, text)) == text
  {
    var tail := [NUL] + buffer[|text| + 1..];
    assert Snprintf(buffer, text) == text + tail;
    CStringPrefix(text, tail);
  }

  lemma {:induction false} DigitsArePlain(n: nat)
    ensures NUL !in Digits(n) && ' ' !in Digits(n)
  {
    assert forall i :: 0 <= i < |Digits(n)| ==> IsDigit(Digits(n)[i]);
  }

  lemma PlainFreq(freq: int)
    ensures NUL !in Format(freq) && ' ' !in Format(freq) && NUL !in FreqText(freq)
  {
    DigitsArePlain(if freq < 0 then -freq else freq);
  }

  lemma PlainTemp(tempMc: int)
    ensures NUL !in TempText(tempMc)
  {
    if tempMc >= 0 { DigitsArePlain(tempMc / 1000); }
  }

  lemma TwoPuts(font: seq<seq<byte>>, s: string, t: string)
    requires IsFont(font)
    ensures Datas(Glyphs(font, s)) + Datas(Glyphs(font, t)) == Datas(Glyphs(font, s + t))
  {
    GlyphsConcat(font, s, t);
  }

  lemma ThreeWrites(font: seq<seq<byte>>, a: RowText, b: RowText, c: RowText)
    requires IsFont(font)
    ensures Writes(font, [a, b, c]) ==
            Write(font, a.row, a.text) + Write(font, b.row, b.text) + Write(font, c.row, c.text)
  {
    assert [a, b, c][..2] == [a, b] && [a, b][..1] == [a] && [a][..0] == [];
    assert Writes(font, [a]) == Write(font, a.row, a.text);
    assert Writes(font, [a, b]) == Writes(font, [a]) + Write(font, b.row, b.text);
  }

  ghost predicate AllFit(history: seq<Sample>) {
    forall i :: 0 <= i < |history| ==> FitsScreen(history[i])
  }

  lemma {:induction false} TrafficGrows(font: seq<seq<byte>>, history: seq<Sample>, i: nat)
    requires IsFont(font) && i < |history|
    ensures Traffic(font, history[..i + 1]) == Traffic(font, history[..i]) + Writes(font, Refresh(history[i]))
  {
    assert history[..i + 1][..i] == history[..i];
  }

  class StatusScreen {
    const display: Display

    constructor (display: Display)
      ensures this.display == display
    {
      this.display := display;
    }

    method WriteRow(row: nat, text: string)
      requires IsFont(display.font) && NUL !in text
      modifies display
      ensures display.wire == old(display.wire) + Write(display.font, row, text)
    {
      WholeCString(text);
      display.SetPosition(0, row);
      display.Puts(text);
    }

    method WriteRows(ws: seq<RowText>)
      requires IsFont(display.font) && forall i :: 0 <= i < |ws| ==> NUL !in ws[i].text
      modifies display
      ensures display.wire == old(display.wire) + Writes(display.font, ws)
    {
      for i := 0 to |ws|
        invariant display.wire == old(display.wire) + Writes(display.font, ws[..i])
      {
        WriteRow(ws[i].row, ws[i].text);
        assert ws[..i + 1][..i] == ws[..i];
      }
      assert ws[..|ws|] == ws;
    }

    method ScreenInit()
      requires IsFont(display.font) && display.wire == []
      modifies display
      ensures display.wire == Traffic(display.font, [])
    {
      display.Init();
      display.ClearDisplay();
      WelcomeIsPlain();
      WriteRows(WELCOME);
    }

    /** snprintf into a stack buffer, then puts at the start of a row. */
    method PutPrinted(row: nat, buf: string, text: string)
      requires IsFont(display.font) && |buf| == 20 && |text| < 20 && NUL !in text
      modifies display
      ensures display.wire == old(display.wire) + Write(display.font, row, text)
    {
      Printed(buf, text);
      display.SetPosition(0, row);
      display.Puts(Snprintf(buf, text));
    }

    method RefreshMode(manual: bool)
      requires IsFont(display.font)
      modifies display
      ensures display.wire == old(display.wire) + Write(display.font, 3, Label(manual))
    {
      var text := if manual then "Mode: Manual " else "Mode: Auto   ";
      assert NUL !in text;
      WriteRow(3, text);
    }

    /** The texts go through 20-byte stack buffers with snprintf. */
    method RefreshTemp(tempMc: int)
      requires IsFont(display.font) && |TempText(tempMc)| <= 16
      modifies display
      ensures display.wire == old(display.wire) + Write(display.font, 5, TempText(tempMc))
    {
      PlainTemp(tempMc);
      if tempMc >= 0 {
        assert |seq(20, _ => 'x')| == 20;
        var buf: string :| |buf| == 20;
        var text := "Temp: " + Format(tempMc / 1000) + "'C  ";
        assert text == TempText(tempMc);
        PutPrinted(5, buf, text);
      } else {
        WriteRow(5, "Temp: --'C  ");
      }
    }

    method RefreshFreq(freq: int)
      requires IsFont(display.font) && |FreqText(freq)| <= 16
      modifies display
      ensures display.wire == old(display.wire) + Write(display.font, 6, FreqText(freq))
    {
      PlainFreq(freq);
      assert |seq(20, _ => 'x')| == 20;
      var buf: string :| |buf| == 20;
      var text := Format(freq) + "Hz";
      Printed(buf, text);
      WriteRow(6, "Freq: ");
      display.Puts(Snprintf(buf, text));
      TwoPuts(display.font, "Freq: ", text);
      assert FreqText(freq) == "Freq: " + text;
    }

    method ScreenRefresh(s: Sample)
      requires IsFont(display.font) && FitsScreen(s)
      modifies display
      ensures display.wire == old(display.wire) + Writes(display.font, Refresh(s))
    {
      RefreshMode(s.manual);
      RefreshTemp(s.tempMc);
      RefreshFreq(s.freq);
      ThreeWrites(display.font, ModeRow(s), TempRow(s), FreqRow(s));
      Regroup(old(display.wire), Write(display.font, 3, Label(s.manual)),
              Write(display.font, 5, TempText(s.tempMc)), Write(display.font, 6, FreqText(s.freq)));
    }

    /** screen_init, then one refresh per timer event. */
    method Session(history: seq<Sample>)
      requires IsFont(display.font) && display.wire == [] && AllFit(history)
      modifies display
      ensures display.wire == Traffic(display.font, history)
    {
      ScreenInit();
      assert history[..0] == [];
      for i := 0 to |history|
        invariant display.wire == Traffic(display.font, history[..i])
      {
        ScreenRefresh(history[i]);
        TrafficGrows(display.font, history, i);
      }
      assert history[..|history|] == history;
    }
  }

  const BLANK_GRID: Grid := [Spaces(16), Spaces(16), Spaces(16), Spaces(16), Spaces(16), Spaces(16), Spaces(16), Spaces(16)]

  /** The grid after screen_init and a history of refreshes. */
  ghost function GridAfter(history: seq<Sample>): (g: Grid)
    requires AllFit(history)
    ensures IsGrid(g)
  {
    if history == [] then Put(BLANK_GRID, WELCOME)
    else Put(GridAfter(history[..|history| - 1]), Refresh(history[|history| - 1]))
  }

  lemma PutOne(g: Grid, w: RowText)
    requires IsGrid(g) && w.row < PAGES && |w.text| <= 16
    ensures Fit([w]) && Put(g, [w]) == PutRow(g, w.row, w.text)
  {
    assert [w][..0] == [];
  }

  lemma PutThree(g: Grid, a: RowText, b: RowText, c: RowText)
    requires IsGrid(g) && a.row < PAGES && b.row < PAGES && c.row < PAGES
    requires |a.text| <= 16 && |b.text| <= 16 && |c.text| <= 16
    ensures Fit([a, b, c]) && Put(g, [a, b, c]) == PutRow(PutRow(PutRow(g, a.row, a.text), b.row, b.text), c.row, c.text)
  {
    PutOne(g, a);
    PutOne(PutRow(g, a.row, a.text), b);
    PutOne(PutRow(PutRow(g, a.row, a.text), b.row, b.text), c);
    PutConcat(g, [a], [b]);
    PutConcat(g, [a] + [b], [c]);
    assert [a, b, c] == [a] + [b] + [c];
  }

  lemma RowsThree(g: Grid, a: RowText, b: RowText, c: RowText)
    requires IsGrid(g) && a.row < PAGES && b.row < PAGES && c.row < PAGES
    requires |a.text| <= 16 && |b.text| <= 16 && |c.text| <= 16
    requires a.row != b.row && b.row != c.row && a.row != c.row
    ensures Fit([a, b, c])
    ensures var h := Put(g, [a, b, c]);
            && h[a.row] == Over(g[a.row], a.text) && h[b.row] == Over(g[b.row], b.text) && h[c.row] == Over(g[c.row], c.text)
            && forall r :: 0 <= r < PAGES && r !in {a.row, b.row, c.row} ==> h[r] == g[r]
  {
    PutThree(g, a, b, c);
  }

  /** Rows 3, 5 and 6 after one more refresh, and the others unchanged. */
  lemma {:induction false} RefreshEffect(history: seq<Sample>)
    requires history != [] && AllFit(history)
    ensures var g, h, s := GridAfter(history[..|history| - 1]), GridAfter(history), history[|history| - 1];
            && h[3] == Over(g[3], Label(s.manual))
            && h[5] == Over(g[5], TempText(s.tempMc))
            && h[6] == Over(g[6], FreqText(s.freq))
            && forall r :: 0 <= r < PAGES && r !in {3, 5, 6} ==> h[r] == g[r]
  {
    var s := history[|history| - 1];
    RowsThree(GridAfter(history[..|history| - 1]), ModeRow(s), TempRow(s), FreqRow(s));
  }

  lemma LabelCovers(row: string, manual: bool)
    requires |row| == 16 && row[13..] == Spaces(3)
    ensures Over(row, Label(manual)) == Pad(Label(manual)) && Over(row, Label(manual))[13..] == Spaces(3)
  {
    assert |Label(manual)| == 13;
  }

  lemma {:induction false} PutElsewhere(g: Grid, ws: seq<RowText>, r: nat)
    requires IsGrid(g) && Fit(ws) && r < PAGES && forall i :: 0 <= i < |ws| ==> ws[i].row != r
    ensures Put(g, ws)[r] == g[r]
  {
    if ws == [] {
    } else {
      PutElsewhere(g, ws[..|ws| - 1], r);
    }
  }

  lemma WelcomeRow(g: Grid, before: seq<RowText>, w: RowText, after: seq<RowText>)
    requires IsGrid(g) && Fit(before) && Fit(after) && w.row < PAGES && |w.text| <= 16
    requires forall i :: 0 <= i < |before| ==> before[i].row != w.row
    requires forall i :: 0 <= i < |after| ==> after[i].row != w.row
    ensures Fit(before + [w] + after) && Put(g, before + [w] + after)[w.row] == Over(g[w.row], w.text)
  {
    PutConcat(g, before + [w], after);
    PutConcat(g, before, [w]);
    PutElsewhere(g, before, w.row);
    PutOne(Put(g, before), w);
    PutElsewhere(Put(g, before + [w]), after, w.row);
  }

  lemma OverBlank(s: string)
    requires |s| <= 16
    ensures Over(Spaces(16), s) == Pad(s)
  {
    assert Spaces(16)[|s|..] == Spaces(16 - |s|);
  }

  /** The text at its place in the welcome screen. */
  lemma WelcomeRowIs(before: seq<RowText>, w: RowText, after: seq<RowText>)
    requires before + [w] + after == WELCOME && Fit(before) && Fit(after) && w.row < PAGES && |w.text| <= 16
    requires forall i :: 0 <= i < |before| ==> before[i].row != w.row
    requires forall i :: 0 <= i < |after| ==> after[i].row != w.row
    ensures Fit(WELCOME) && Put(BLANK_GRID, WELCOME)[w.row] == Pad(w.text)
  {
    WelcomeRow(BLANK_GRID, before, w, after);
    OverBlank(w.text);
  }

  lemma WelcomeTitle()
    ensures Fit(WELCOME) && Put(BLANK_GRID, WELCOME)[0] == "CSEL1a - SP.07  "
  {
    WelcomeRowIs([], HEADER[0], HEADER[1..] + [MODE] + [RULE] + [TEMPERATURE] + [FREQUENCY]);
    assert Spaces(2) == "  ";
  }

  lemma WelcomeSubtitle()
    ensures Fit(WELCOME) && Put(BLANK_GRID, WELCOME)[1] == "  Demo - SW     "
  {
    WelcomeRowIs(HEADER[..1], HEADER[1], HEADER[2..] + [MODE] + [RULE] + [TEMPERATURE] + [FREQUENCY]);
    assert Spaces(5) == "     ";
  }

  lemma WelcomeRules()
    ensures Fit(WELCOME)
    ensures Put(BLANK_GRID, WELCOME)[2] == "--------------  " && Put(BLANK_GRID, WELCOME)[4] == "--------------  "
  {
    WelcomeRowIs(HEADER[..2], HEADER[2], [MODE] + [RULE] + [TEMPERATURE] + [FREQUENCY]);
    WelcomeRowIs(HEADER + [MODE], RULE, [TEMPERATURE] + [FREQUENCY]);
    assert Spaces(2) == "  ";
  }

  lemma WelcomeLast()
    ensures Fit(WELCOME) && Put(BLANK_GRID, WELCOME)[7] == "                "
  {
    assert Fit(HEADER) && Fit(WELCOME);
    PutElsewhere(BLANK_GRID, WELCOME, 7);
    assert Spaces(16) == "                ";
  }

  lemma WelcomeGrid()
    ensures Fit(WELCOME) && Put(BLANK_GRID, WELCOME)[3] == Pad("Mode: Unknown")
    ensures Put(BLANK_GRID, WELCOME)[5] == Pad("Temp: xx'C")
    ensures Put(BLANK_GRID, WELCOME)[6] == Pad("Freq: xxHz")
  {
    WelcomeRow(BLANK_GRID, HEADER, MODE, [RULE] + [TEMPERATURE] + [FREQUENCY]);
    assert HEADER + [MODE] + ([RULE] + [TEMPERATURE] + [FREQUENCY]) == WELCOME;
    WelcomeRow(BLANK_GRID, HEADER + [MODE] + [RULE], TEMPERATURE, [FREQUENCY]);
    WelcomeRow(BLANK_GRID, HEADER + [MODE] + [RULE] + [TEMPERATURE], FREQUENCY, []);
    assert WELCOME + [] == WELCOME;
    OverBlank("Mode: Unknown");
    OverBlank("Temp: xx'C");
    OverBlank("Freq: xxHz");
  }

  lemma {:induction false} ModeTail(history: seq<Sample>)
    requires AllFit(history)
    ensures GridAfter(history)[3][13..] == Spaces(3)
  {
    if history == [] {
      WelcomeGrid();
    } else {
      var init, s := history[..|history| - 1], history[|history| - 1];
      RefreshEffect(history);
      ModeTail(init);
      LabelCovers(GridAfter(init)[3], s.manual);
    }
  }

  /** Row 3 always shows exactly the current mode. */
  lemma {:induction false} ModeRowIsCurrent(history: seq<Sample>)
    requires history != [] && AllFit(history)
    ensures GridAfter(history)[3] == if history[|history| - 1].manual then "Mode: Manual    " else "Mode: Auto      "
  {
    RefreshEffect(history);
    ModeTail(history[..|history| - 1]);
    LabelCovers(GridAfter(history[..|history| - 1])[3], history[|history| - 1].manual);
    assert Spaces(3) == "   ";
  }

  /** The longest frequency text written so far, the welcome screen's ten characters included. */
  function Longest(history: seq<Sample>): nat {
    if history == [] then 10
    else
      var before, now := Longest(history[..|history| - 1]), |FreqText(history[|history| - 1].freq)|;
      if now > before then now else before
  }

  /** A frequency row whose text fills exactly the cells below m. */
  ghost predicate FilledTo(row: string, m: nat) {
    |row| == 16 && 6 <= m <= 16 && row[..6] == "Freq: " && forall j :: 6 <= j < 16 ==> (row[j] == ' ' <==> j >= m)
  }

  lemma TextIsPlain(freq: int)
    ensures |FreqText(freq)| > 8 && FreqText(freq)[..6] == "Freq: "
    ensures forall j :: 6 <= j < |FreqText(freq)| ==> FreqText(freq)[j] != ' '
  {
    PlainFreq(freq);
    var t := Format(freq) + "Hz";
    assert FreqText(freq) == "Freq: " + t;
    assert forall j :: 0 <= j < |t| ==> t[j] != ' ';
  }

  lemma {:induction false} FrequencyRowFilled(history: seq<Sample>)
    requires AllFit(history)
    ensures FilledTo(GridAfter(history)[6], Longest(history))
  {
    if history == [] {
      WelcomeGrid();
    } else {
      var init, s := history[..|history| - 1], history[|history| - 1];
      RefreshEffect(history);
      FrequencyRowFilled(init);
      var text, row, next := FreqText(s.freq), GridAfter(init)[6], GridAfter(history)[6];
      PlainFreq(s.freq);
      TextIsPlain(s.freq);
      assert next == text + row[|text|..];
      forall j | 6 <= j < 16
        ensures next[j] == ' ' <==> j >= Longest(history)
      {
        assert next[j] == if j < |text| then text[j] else row[j];
      }
    }
  }

  /** Row 6 shows the current frequency followed by the tail of what was there; it shows the
      frequency alone exactly when no text written before, the welcome screen's included, was
      longer. */
  lemma {:induction false} FrequencyRowIsCleanExactlyWhen(history: seq<Sample>)
    requires history != [] && AllFit(history)
    ensures var text := FreqText(history[|history| - 1].freq);
            GridAfter(history)[6][..|text|] == text &&
            (GridAfter(history)[6] == Pad(text) <==> Longest(history) == |text|)
  {
    var s := history[|history| - 1];
    RefreshEffect(history);
    FrequencyRowFilled(history);
    TextIsPlain(s.freq);
    var text, row := FreqText(s.freq), GridAfter(history)[6];
    if Longest(history) == |text| {
      assert forall j :: |text| <= j < 16 ==> row[j] == ' ';
      assert row == row[..|text|] + row[|text|..];
    } else {
      assert row[|text|] != ' ' && Pad(text)[|text|] == ' ';
    }
  }

  /** Where the visible part of the temperature row ends. Each text ends in two blanks, so it
      clears two cells beyond what it shows. */
  function TempExtent(history: seq<Sample>): nat {
    if history == [] then 10
    else
      var before, now := TempExtent(history[..|history| - 1]), |TempText(history[|history| - 1].tempMc)|;
      if before > now then before else now - 2
  }

  ghost predicate EndsAt(row: string, e: nat) {
    |row| == 16 && 0 < e <= 16 && row[e - 1] != ' ' && forall j :: e <= j < 16 ==> row[j] == ' '
  }

  lemma TempTextEnds(tempMc: int)
    ensures var text := TempText(tempMc);
            |text| > 10 && text[|text| - 3] != ' ' && text[|text| - 2] == text[|text| - 1] == ' '
  {
    if tempMc >= 0 {
      var shown := "Temp: " + Format(tempMc / 1000);
      assert TempText(tempMc) == shown + "'C  ";
    }
  }

  lemma OverEnds(row: string, e: nat, text: string)
    requires EndsAt(row, e) && 3 <= |text| <= 16
    requires text[|text| - 3] != ' ' && text[|text| - 2] == text[|text| - 1] == ' '
    ensures EndsAt(Over(row, text), if e > |text| then e else |text| - 2)
    ensures Over(row, text) == Pad(text) <==> e <= |text|
  {
    var next := Over(row, text);
    assert forall j :: 0 <= j < 16 ==> next[j] == if j < |text| then text[j] else row[j];
    if e <= |text| {
      assert row[|text|..] == Spaces(16 - |text|);
    } else {
      assert Pad(text)[e - 1] == ' ';
    }
  }

  lemma {:induction false} TempRowEnds(history: seq<Sample>)
    requires AllFit(history)
    ensures EndsAt(GridAfter(history)[5], TempExtent(history))
  {
    if history == [] {
      WelcomeGrid();
    } else {
      var init, s := history[..|history| - 1], history[|history| - 1];
      RefreshEffect(history);
      TempRowEnds(init);
      TempTextEnds(s.tempMc);
      OverEnds(GridAfter(init)[5], TempExtent(init), TempText(s.tempMc));
    }
  }

  /** Row 5 shows the current temperature, and nothing after it exactly when the row ended no
      further than the new text reaches. */
  lemma {:induction false} TempRowIsCleanExactlyWhen(history: seq<Sample>)
    requires history != [] && AllFit(history)
    ensures var text := TempText(history[|history| - 1].tempMc);
            GridAfter(history)[5][..|text|] == text &&
            (GridAfter(history)[5] == Pad(text) <==> TempExtent(history[..|history| - 1]) <= |text|)
  {
    var init, s := history[..|history| - 1], history[|history| - 1];
    RefreshEffect(history);
    TempRowEnds(init);
    TempTextEnds(s.tempMc);
    OverEnds(GridAfter(init)[5], TempExtent(init), TempText(s.tempMc));
  }

  lemma ThreeDigits(tempMc: int)
    requires tempMc < 1000000
    ensures 11 <= |TempText(tempMc)| <= 13
  {
    if tempMc >= 0 {
      var t := tempMc / 1000;
      if t >= 10 { assert |Digits(t / 10)| == if t < 100 then 1 else 1 + |Digits(t / 100)|; }
    }
  }

  lemma {:induction false} ShortTemperatures(history: seq<Sample>)
    requires forall i :: 0 <= i < |history| ==> history[i].tempMc < 1000000
    ensures TempExtent(history) <= 11
  {
    if history == [] {
    } else {
      ShortTemperatures(history[..|history| - 1]);
      ThreeDigits(history[|history| - 1].tempMc);
    }
  }

  /** Below 1000 degrees the two blanks absorb every drop: row 5 shows exactly the current
      temperature. */
  lemma {:induction false} TempRowIsCurrent(history: seq<Sample>)
    requires history != [] && AllFit(history)
    requires forall i :: 0 <= i < |history| ==> history[i].tempMc < 1000000
    ensures GridAfter(history)[5] == Pad(TempText(history[|history| - 1].tempMc))
  {
    TempRowIsCleanExactlyWhen(history);
    ShortTemperatures(history[..|history| - 1]);
    ThreeDigits(history[|history| - 1].tempMc);
  }

  lemma RowOfZeros(ram: seq<byte>, r: nat)
    requires |ram| == PAGES * COLUMNS && r < PAGES && forall i :: 0 <= i < |ram| ==> ram[i] == 0
    ensures ram[COLUMNS * r..COLUMNS * (r + 1)] == seq(COLUMNS, _ => 0)
  {
  }

  lemma StartShowsBlank(font: seq<seq<byte>>, o: Oled)
    requires IsFont(font) && Sound(o) && !o.argument
    ensures Shows(font, Run(o, Start(font)), BLANK_GRID)
  {
    var first := Commands(INIT_COMMANDS) + Clear(font);
    RunConcat(o, first, Clear(font));
    InitBlanks(font, o);
    ClearZeroes(font, Run(o, first));
    SpacesAreZero(font, 16);
    var ram := Run(o, Start(font)).ram;
    forall r | 0 <= r < PAGES
      ensures ram[COLUMNS * r..COLUMNS * (r + 1)] == Glyphs(font, BLANK_GRID[r])
    {
      RowOfZeros(ram, r);
      assert BLANK_GRID[r] == Spaces(16);
    }
  }

  /** The display's memory after screen_init and any refreshes is the grid, glyph by glyph. */
  lemma {:induction false} DisplayShowsGrid(font: seq<seq<byte>>, o: Oled, history: seq<Sample>)
    requires IsFont(font) && Sound(o) && !o.argument && AllFit(history)
    ensures Shows(font, Run(o, Traffic(font, history)), GridAfter(history))
  {
    if history == [] {
      RunConcat(o, Start(font), Writes(font, WELCOME));
      StartShowsBlank(font, o);
      WritesShow(font, Run(o, Start(font)), BLANK_GRID, WELCOME);
    } else {
      var init, s := history[..|history| - 1], history[|history| - 1];
      DisplayShowsGrid(font, o, init);
      RunConcat(o, Traffic(font, init), Writes(font, Refresh(s)));
      WritesShow(font, Run(o, Traffic(font, init)), GridAfter(init), Refresh(s));
    }
  }

  lemma {:induction false} AtLeastTheWelcome(history: seq<Sample>)
    ensures Longest(history) >= 10
  {
    if history == [] {
    } else {
      AtLeastTheWelcome(history[..|history| - 1]);
    }
  }

  /** A row whose number after the six-character label is n, followed by this unit. */
  ghost predicate Reads(row: string, heading: string, n: nat, unit: string) {
    |row| >= 6 && row[..6] == heading && Scan(row[6..], 0).0 == n && unit <= Scan(row[6..], 0).1
  }

  lemma FreqReads(row: string, freq: int)
    requires freq >= 0 && |FreqText(freq)| <= |row|
    ensures Reads(Over(row, FreqText(freq)), "Freq: ", freq, "Hz")
  {
    var rest := "Hz" + row[|FreqText(freq)|..];
    ScanStops(freq, rest);
    assert Over(row, FreqText(freq)) == "Freq: " + (Digits(freq) + rest);
  }

  lemma TempReads(row: string, tempMc: int)
    requires tempMc >= 0 && |TempText(tempMc)| <= |row|
    ensures Reads(Over(row, TempText(tempMc)), "Temp: ", tempMc / 1000, "'C  ")
  {
    var rest := "'C  " + row[|TempText(tempMc)|..];
    ScanStops(tempMc / 1000, rest);
    assert Over(row, TempText(tempMc)) == "Temp: " + (Digits(tempMc / 1000) + rest);
  }

  /** What a person reads off rows 5 and 6: the number after the label is the temperature in whole
      degrees and the frequency, each followed by its unit; a failed reading shows as dashes. */
  lemma {:induction false} RowsReadBack(history: seq<Sample>)
    requires history != [] && AllFit(history)
    ensures var g, s := GridAfter(history), history[|history| - 1];
            && (s.freq >= 0 ==> Reads(g[6], "Freq: ", s.freq, "Hz"))
            && (s.tempMc < 0 ==> "Temp: --'C  " <= g[5])
            && (s.tempMc >= 0 ==>
                  exists t: nat :: Reads(g[5], "Temp: ", t, "'C  ") && 1000 * t <= s.tempMc < 1000 * (t + 1))
  {
    var before, s := GridAfter(history[..|history| - 1]), history[|history| - 1];
    RefreshEffect(history);
    if s.freq >= 0 { FreqReads(before[6], s.freq); }
    if s.tempMc >= 0 { TempReads(before[5], s.tempMc); }
  }

  /** The rows that never change keep the welcome screen's text. */
  lemma {:induction false} OtherRowsStay(history: seq<Sample>)
    requires AllFit(history)
    ensures var g := GridAfter(history);
            && g[0] == "CSEL1a - SP.07  " && g[1] == "  Demo - SW     "
            && g[2] == g[4] == "--------------  " && g[7] == "                "
  {
    if history == [] {
      WelcomeTitle();
      WelcomeSubtitle();
      WelcomeRules();
      WelcomeLast();
    } else {
      RefreshEffect(history);
      OtherRowsStay(history[..|history| - 1]);
    }
  }

  /** What showing a grid means byte by byte: at character cell (r, i) stands the font's entry for
      the grid's character. */
  lemma ShownByte(font: seq<seq<byte>>, o: Oled, g: Grid, r: nat, i: nat, j: nat)
    requires IsFont(font) && Shows(font, o, g) && r < PAGES && i < 16 && j < 8
    ensures var c := g[r][i] as int;
            o.ram[COLUMNS * r + 8 * i + j] == if 32 <= c <= 127 then font[c - 32][j] else 0
  {
    GlyphByte(font, g[r], i, j);
    assert o.ram[COLUMNS * r..COLUMNS * (r + 1)][8 * i + j] == o.ram[COLUMNS * r + 8 * i + j];
  }

  /** So a one-digit frequency is never shown cleanly: the welcome text's last letter or that of
      a longer text stays. */
  lemma {:induction false} OneDigitIsNeverClean(history: seq<Sample>)
    requires history != [] && AllFit(history) && 0 <= history[|history| - 1].freq < 10
    ensures GridAfter(history)[6] != Pad(FreqText(history[|history| - 1].freq))
  {
    FrequencyRowIsCleanExactlyWhen(history);
    AtLeastTheWelcome(history);
    assert |FreqText(history[|history| - 1].freq)| == 9;
  }

  /** Right after the welcome screen, the letter that stays is its z. */
  lemma OneDigitIsGarbled(s: Sample)
    requires FitsScreen(s) && 0 <= s.freq < 10
    ensures AllFit([s]) && GridAfter([s])[6] == Pad(FreqText(s.freq) + "z")
  {
    assert [s][..0] == [];
    RefreshEffect([s]);
    WelcomeGrid();
    assert |FreqText(s.freq)| == 9;
  }
}
