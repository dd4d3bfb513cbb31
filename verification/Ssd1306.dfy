/** The OLED driver as the bytes it puts on the I2C bus, and a small model of the SSD1306 that
    interprets them: page addressing mode (sections 10.1.1, 10.1.2, 10.1.3 and 10.1.13 of the
    SSD1306 datasheet), 8 pages of 128 columns, an 8-byte column per character. */
module Ssd1306 {
  import opened Basics
  import opened Decimal

  const PAGES: nat := 8
  const COLUMNS: nat := 128
  const BLANK: seq<byte> := [0, 0, 0, 0, 0, 0, 0, 0]

  ghost predicate IsFont(f: seq<seq<byte>>) {
    |f| == 96 && f[0] == BLANK && forall i :: 0 <= i < 96 ==> |f[i]| == 8
  }

  datatype Transfer = Command(b: byte) | Data(b: byte)

  /** Display memory page after page. `argument`: the next command byte belongs to a two-byte
      command. */
  datatype Oled = Oled(ram: seq<byte>, page: nat, column: nat, on: bool, argument: bool)

  predicate Sound(o: Oled) {
    |o.ram| == PAGES * COLUMNS && o.page < PAGES && o.column < COLUMNS
  }

  function Cursor(o: Oled): nat {
    COLUMNS * o.page + o.column
  }

  /** The column pointer after a new low or high nibble. */
  function SetLow(column: nat, n: nat): (c: nat)
    requires column < COLUMNS && n < 16
    ensures c < COLUMNS && c % 16 == n
  {
    16 * (column / 16) + n
  }

  function SetHigh(column: nat, n: nat): (c: nat)
    requires column < COLUMNS && n < 16
    ensures c < COLUMNS && (n < 8 ==> c == 16 * n + column % 16)
  {
    16 * (if n < 8 then n else n - 8) + column % 16
  }

  const TWO_BYTE_COMMANDS: set<int> := {0x20, 0x81, 0x8D, 0xA8, 0xD3, 0xD5, 0xD9, 0xDA, 0xDB}

  function Receive(o: Oled, t: Transfer): (r: Oled)
    requires Sound(o)
    ensures Sound(r)
  {
    match t
    case Data(b) =>
      o.(ram := o.ram[Cursor(o) := b], column := if o.column + 1 == COLUMNS then 0 else o.column + 1)
    case Command(b) =>
      if o.argument then o.(argument := false)
      else if b < 0x10 then o.(column := SetLow(o.column, b))
      else if b < 0x20 then o.(column := SetHigh(o.column, b - 0x10))
      else if 0xB0 <= b < 0xB8 then o.(page := b - 0xB0)
      else if b == 0xAE then o.(on := false)
      else if b == 0xAF then o.(on := true)
      else if b in TWO_BYTE_COMMANDS then o.(argument := true)
      else o
  }

  function Run(o: Oled, ts: seq<Transfer>): (r: Oled)
    requires Sound(o)
    ensures Sound(r)
    decreases ts
  {
    if ts == [] then o else Run(Receive(o, ts[0]), ts[1..])
  }

  lemma {:induction false} RunConcat(o: Oled, a: seq<Transfer>, b: seq<Transfer>)
    requires Sound(o)
    ensures Run(o, a + b) == Run(Run(o, a), b)
    decreases a
  {
    if a == [] {
      assert a + b == b;
    } else {
      assert (a + b)[1..] == a[1..] + b;
      RunConcat(Receive(o, a[0]), a[1..], b);
    }
  }

  /** `0xb0 + row`, `8 * column` in two nibbles, each cut to a byte. */
  function Position(column: nat, row: nat): seq<Transfer> {
    [Command((0xB0 + row) % 256), Command(8 * column % 16), Command(0x10 + 8 * column / 16 % 16)]
  }

  function Index(c: char): nat {
    if c as int < 32 || c as int > 127 then 0 else c as int - 32
  }

  function Glyph(font: seq<seq<byte>>, c: char): (g: seq<byte>)
    requires IsFont(font)
    ensures |g| == 8
  {
    font[Index(c)]
  }

  function Glyphs(font: seq<seq<byte>>, s: string): (g: seq<byte>)
    requires IsFont(font)
    ensures |g| == 8 * |s|
  {
    if s == [] then [] else Glyph(font, s[0]) + Glyphs(font, s[1..])
  }

  function Datas(bs: seq<byte>): seq<Transfer> {
    seq(|bs|, i requires 0 <= i < |bs| => Data(bs[i]))
  }

  function Paint(ram: seq<byte>, at: nat, bs: seq<byte>): seq<byte>
    requires at + |bs| <= |ram|
  {
    ram[..at] + bs + ram[at + |bs|..]
  }

  lemma {:induction false} GlyphsConcat(font: seq<seq<byte>>, s: string, t: string)
    requires IsFont(font)
    ensures Glyphs(font, s + t) == Glyphs(font, s) + Glyphs(font, t)
  {
    if s == [] {
      assert s + t == t;
    } else {
      assert (s + t)[1..] == s[1..] + t;
      GlyphsConcat(font, s[1..], t);
    }
  }

  /** Byte j of character i: that of the font's entry for its code, counted from the blank, and
      blank if it is not printable ASCII. */
  lemma {:induction false} GlyphByte(font: seq<seq<byte>>, s: string, i: nat, j: nat)
    requires IsFont(font) && i < |s| && j < 8
    ensures var c := s[i] as int;
            Glyphs(font, s)[8 * i + j] == if 32 <= c <= 127 then font[c - 32][j] else 0
  {
    if i == 0 {
    } else {
      GlyphByte(font, s[1..], i - 1, j);
    }
  }

  lemma RunOne(o: Oled, t: Transfer)
    requires Sound(o)
    ensures Run(o, [t]) == Receive(o, t)
  {
    assert [t][1..] == [];
  }

  /** Data bytes that fit before the end of the page change exactly their window of it. */
  lemma {:induction false} DataPaints(o: Oled, bs: seq<byte>)
    requires Sound(o) && o.column + |bs| <= COLUMNS
    ensures Run(o, Datas(bs)) ==
            o.(ram := Paint(o.ram, Cursor(o), bs), column := if o.column + |bs| == COLUMNS then 0 else o.column + |bs|)
    decreases |bs|
  {
    if bs == [] {
      assert Paint(o.ram, Cursor(o), bs) == o.ram;
    } else {
      var n := |bs| - 1;
      var p := Run(o, Datas(bs[..n]));
      DataPaints(o, bs[..n]);
      assert Datas(bs) == Datas(bs[..n]) + [Data(bs[n])];
      RunConcat(o, Datas(bs[..n]), [Data(bs[n])]);
      RunOne(p, Data(bs[n]));
      assert Paint(o.ram, Cursor(o), bs) == p.ram[Cursor(o) + n := bs[n]];
    }
  }

  lemma RunThree(o: Oled, a: Transfer, b: Transfer, c: Transfer)
    requires Sound(o)
    ensures Run(o, [a, b, c]) == Receive(Receive(Receive(o, a), b), c)
  {
    RunConcat(o, [a] + [b], [c]);
    RunConcat(o, [a], [b]);
    RunOne(o, a);
    RunOne(Receive(o, a), b);
    RunOne(Receive(Receive(o, a), b), c);
    assert [a, b, c] == [a] + [b] + [c];
  }

  lemma Addressed(o: Oled, row: nat, low: nat, high: nat)
    requires Sound(o) && !o.argument && row < PAGES && low < 16 && high < 8
    ensures Receive(Receive(Receive(o, Command(0xB0 + row)), Command(low)), Command(0x10 + high)) ==
            o.(page := row, column := 16 * high + low)
  {
  }

  lemma PositionIs(column: nat, row: nat)
    requires column < 16 && row < PAGES
    ensures var low, high := 8 * (column % 2), column / 2;
            Position(column, row) == [Command(0xB0 + row), Command(low), Command(0x10 + high)]
  {
    assert 8 * column == 16 * (column / 2) + 8 * (column % 2);
  }

  lemma PositionMoves(o: Oled, column: nat, row: nat)
    requires Sound(o) && !o.argument && column < 16 && row < PAGES
    ensures Run(o, Position(column, row)) == o.(page := row, column := 8 * column)
  {
    var low, high := 8 * (column % 2), column / 2;
    PositionIs(column, row);
    RunThree(o, Command(0xB0 + row), Command(low), Command(0x10 + high));
    Addressed(o, row, low, high);
  }

  /** set_position then puts of a text that fits: exactly the text's window of that page shows
      the text's glyphs, and no other byte of the display changes. */
  lemma {:induction false} PutsAt(font: seq<seq<byte>>, o: Oled, column: nat, row: nat, s: string)
    requires IsFont(font) && Sound(o) && !o.argument && row < PAGES && column < 16 && column + |s| <= 16
    ensures var r := Run(o, Position(column, row) + Datas(Glyphs(font, s)));
            && r.ram == Paint(o.ram, COLUMNS * row + 8 * column, Glyphs(font, s))
            && !r.argument && r.on == o.on
  {
    RunConcat(o, Position(column, row), Datas(Glyphs(font, s)));
    PositionMoves(o, column, row);
    DataPaints(Run(o, Position(column, row)), Glyphs(font, s));
  }

  function Spaces(n: nat): string {
    seq(n, _ => ' ')
  }

  lemma {:induction false} SpacesAreZero(font: seq<seq<byte>>, n: nat)
    requires IsFont(font)
    ensures Glyphs(font, Spaces(n)) == seq(8 * n, _ => 0)
  {
    if n == 0 {
    } else {
      assert Spaces(n)[1..] == Spaces(n - 1);
      SpacesAreZero(font, n - 1);
    }
  }

  /** clear_display's first n rows. */
  function ClearRows(font: seq<seq<byte>>, n: nat): seq<Transfer>
    requires IsFont(font)
  {
    if n == 0 then [] else ClearRows(font, n - 1) + (Position(0, n - 1) + Datas(Glyphs(font, Spaces(16))))
  }

  function Clear(font: seq<seq<byte>>): seq<Transfer>
    requires IsFont(font)
  {
    [Command(0xAE)] + ClearRows(font, PAGES) + ([Command(0xAF)] + Position(0, 0))
  }

  lemma {:induction false} ClearRowsZero(font: seq<seq<byte>>, o: Oled, n: nat)
    requires IsFont(font) && Sound(o) && !o.argument && n <= PAGES
    ensures var r := Run(o, ClearRows(font, n));
            !r.argument && forall i :: 0 <= i < COLUMNS * n ==> r.ram[i] == 0
  {
    if n == 0 {
    } else {
      ClearRowsZero(font, o, n - 1);
      var m := Run(o, ClearRows(font, n - 1));
      RunConcat(o, ClearRows(font, n - 1), Position(0, n - 1) + Datas(Glyphs(font, Spaces(16))));
      PutsAt(font, m, 0, n - 1, Spaces(16));
      SpacesAreZero(font, 16);
      var r, at := Run(o, ClearRows(font, n)), COLUMNS * (n - 1);
      assert r.ram == Paint(m.ram, at, seq(COLUMNS, _ => 0));
      assert forall i :: 0 <= i < COLUMNS * n ==> r.ram[i] == if i < at then m.ram[i] else 0;
    }
  }

  /** Whatever was on the display, clear_display leaves every byte zero and the display on. */
  lemma {:induction false} ClearZeroes(font: seq<seq<byte>>, o: Oled)
    requires IsFont(font) && Sound(o) && !o.argument
    ensures var r := Run(o, Clear(font));
            && (forall i :: 0 <= i < |r.ram| ==> r.ram[i] == 0)
            && r.on && !r.argument && r.page == 0 && r.column == 0
  {
    var off, rows, tail := [Command(0xAE)], ClearRows(font, PAGES), [Command(0xAF)] + Position(0, 0);
    RunConcat(o, off + rows, tail);
    RunConcat(o, off, rows);
    var a := Run(o, off);
    assert off[1..] == [] && a == o.(on := false);
    ClearRowsZero(font, a, PAGES);
    var b := Run(a, rows);
    assert tail[1..] == Position(0, 0) && tail[0] == Command(0xAF);
    assert Run(b, tail) == Run(b.(on := true), Position(0, 0));
    PositionMoves(b.(on := true), 0, 0);
  }

  const INIT_COMMANDS: seq<byte> := [
    0xAE, 0x00, 0x10, 0x40, 0xB0, 0x81, 0xCF, 0xA1, 0xA6, 0xA8, 0x3F, 0xC8, 0xD3, 0x00,
    0xD5, 0x80, 0xD9, 0xF1, 0xDA, 0x12, 0xDB, 0x40, 0x8D, 0x14, 0xAF]

  function Commands(bs: seq<byte>): seq<Transfer> {
    seq(|bs|, i requires 0 <= i < |bs| => Command(bs[i]))
  }

  lemma OneMoreGlyph(font: seq<seq<byte>>, text: string, i: nat)
    requires IsFont(font) && i < |text|
    ensures Datas(Glyphs(font, text[..i + 1])) == Datas(Glyphs(font, text[..i])) + Datas(Glyph(font, text[i]))
  {
    GlyphsConcat(font, text[..i], [text[i]]);
    assert text[..i + 1] == text[..i] + [text[i]];
    assert [text[i]][1..] == [] && Glyphs(font, [text[i]]) == Glyph(font, text[i]) + [];
  }

  lemma OneMoreSpace(font: seq<seq<byte>>, i: nat)
    requires IsFont(font)
    ensures Datas(Glyphs(font, Spaces(i + 1))) == Datas(Glyphs(font, Spaces(i))) + Datas(Glyph(font, ' '))
  {
    OneMoreGlyph(font, Spaces(i + 1), i);
    assert Spaces(i + 1)[..i] == Spaces(i) && Spaces(i + 1)[..i + 1] == Spaces(i + 1);
  }

  /** The bytes of the driver on the bus. */
  class Display {
    const font: seq<seq<byte>>
    var wire: seq<Transfer>

    constructor (font: seq<seq<byte>>)
      requires IsFont(font)
      ensures this.font == font && wire == []
    {
      this.font := font;
      wire := [];
    }

    method SendCommand(b: byte)
      modifies this
      ensures wire == old(wire) + [Command(b)]
    {
      wire := wire + [Command(b)];
    }

    method SendData(b: byte)
      modifies this
      ensures wire == old(wire) + [Data(b)]
    {
      wire := wire + [Data(b)];
    }

    method SetPosition(column: nat, row: nat)
      modifies this
      ensures wire == old(wire) + Position(column, row)
    {
      SendCommand((0xB0 + row) % 256);
      SendCommand(8 * column % 16);
      SendCommand(0x10 + 8 * column / 16 % 16);
    }

    method Putc(c: char)
      requires IsFont(font)
      modifies this
      ensures wire == old(wire) + Datas(Glyph(font, c))
    {
      var d := if c as int < 32 || c as int > 127 then ' ' else c;
      var g := font[d as int - 32];
      for i := 0 to 8
        invariant wire == old(wire) + Datas(g[..i])
      {
        SendData(g[i]);
        assert Datas(g[..i + 1]) == Datas(g[..i]) + [Data(g[i])];
      }
      assert g[..8] == g;
    }

    /** `text` is read up to its first NUL. */
    method Puts(text: string)
      requires IsFont(font)
      modifies this
      ensures wire == old(wire) + Datas(Glyphs(font, CString(text)))
    {
      var i := 0;
      assert text[..0] == [];
      while i < |text| && text[i] != NUL
        invariant i <= |text| && CString(text) == text[..i] + CString(text[i..])
        invariant wire == old(wire) + Datas(Glyphs(font, text[..i]))
      {
        Putc(text[i]);
        OneMoreGlyph(font, text, i);
        assert text[i..][1..] == text[i + 1..];
        i := i + 1;
      }
      assert CString(text[i..]) == [];
      assert CString(text) == text[..i];
    }

    /** The inner loop of ssd1306_clear_display. */
    method ClearRow(j: nat)
      requires IsFont(font)
      modifies this
      ensures wire == old(wire) + (Position(0, j) + Datas(Glyphs(font, Spaces(16))))
    {
      SetPosition(0, j);
      ghost var start := wire;
      for i := 0 to 16
        invariant wire == start + Datas(Glyphs(font, Spaces(i)))
      {
        Putc(' ');
        OneMoreSpace(font, i);
      }
    }

    method ClearDisplay()
      requires IsFont(font)
      modifies this
      ensures wire == old(wire) + Clear(font)
    {
      SendCommand(0xAE);
      ghost var start := wire;
      for j := 0 to 8
        invariant wire == start + ClearRows(font, j)
      {
        ClearRow(j);
      }
      SendCommand(0xAF);
      SetPosition(0, 0);
    }

    method SendCommands(bs: seq<byte>)
      modifies this
      ensures wire == old(wire) + Commands(bs)
    {
      for i := 0 to |bs|
        invariant wire == old(wire) + Commands(bs[..i])
      {
        SendCommand(bs[i]);
        assert Commands(bs[..i + 1]) == Commands(bs[..i]) + [Command(bs[i])];
      }
      assert bs[..|bs|] == bs;
    }

    method Init()
      requires IsFont(font)
      modifies this
      ensures wire == old(wire) + Commands(INIT_COMMANDS) + Clear(font)
    {
      SendCommands(INIT_COMMANDS);
      ClearDisplay();
    }
  }

  /** Whether commands from index i on end in the middle of a two-byte command. */
  function Dangling(bs: seq<byte>, i: nat, argument: bool): bool
    decreases |bs| - i
  {
    if i >= |bs| then argument else Dangling(bs, i + 1, !argument && bs[i] in TWO_BYTE_COMMANDS)
  }

  lemma {:induction false} DanglingIs(o: Oled, bs: seq<byte>, i: nat)
    requires Sound(o) && i <= |bs|
    ensures Run(o, Commands(bs[i..])).argument == Dangling(bs, i, o.argument)
    decreases |bs| - i
  {
    if i == |bs| {
    } else {
      assert bs[i..][1..] == bs[i + 1..];
      assert Commands(bs[i..]) == [Command(bs[i])] + Commands(bs[i + 1..]);
      assert Commands(bs[i..])[1..] == Commands(bs[i + 1..]);
      DanglingIs(Receive(o, Command(bs[i])), bs, i + 1);
    }
  }

  lemma InitComplete()
    ensures !Dangling(INIT_COMMANDS, 0, false)
  {
    assert !Dangling(INIT_COMMANDS, 24, false);
    assert !Dangling(INIT_COMMANDS, 22, false);
    assert !Dangling(INIT_COMMANDS, 20, false);
    assert !Dangling(INIT_COMMANDS, 18, false);
    assert !Dangling(INIT_COMMANDS, 16, false);
    assert !Dangling(INIT_COMMANDS, 14, false);
    assert !Dangling(INIT_COMMANDS, 12, false);
    assert !Dangling(INIT_COMMANDS, 11, false);
    assert !Dangling(INIT_COMMANDS, 9, false);
    assert !Dangling(INIT_COMMANDS, 7, false);
    assert !Dangling(INIT_COMMANDS, 5, false);
    assert !Dangling(INIT_COMMANDS, 3, false);
    assert !Dangling(INIT_COMMANDS, 1, false);
  }

  lemma CommandsThenClear(font: seq<seq<byte>>, o: Oled, bs: seq<byte>)
    requires IsFont(font) && Sound(o) && !o.argument && !Dangling(bs, 0, false)
    ensures var r := Run(o, Commands(bs) + Clear(font));
            (forall i :: 0 <= i < |r.ram| ==> r.ram[i] == 0) && r.on && !r.argument
  {
    RunConcat(o, Commands(bs), Clear(font));
    DanglingIs(o, bs, 0);
    assert bs[0..] == bs;
    ClearZeroes(font, Run(o, Commands(bs)));
  }

  /** From any power-on contents, init leaves a blank display that is on. */
  lemma {:induction false} InitBlanks(font: seq<seq<byte>>, o: Oled)
    requires IsFont(font) && Sound(o) && !o.argument
    ensures var r := Run(o, Commands(INIT_COMMANDS) + Clear(font));
            (forall i :: 0 <= i < |r.ram| ==> r.ram[i] == 0) && r.on && !r.argument
  {
    InitComplete();
    CommandsThenClear(font, o, INIT_COMMANDS);
  }
}
