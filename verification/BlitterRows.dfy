/** The shifter and the fill, seen over the words a whole blit stores. */
module BlitterRows {
  import opened Words
  import opened AreaFill
  import opened BlitterModel
  import opened BarrelShifter
  import FastRefines

  /** Word `k` before the fill: minterms of the shifted A stream, the held B word and the C word. */
  function Raw(s: Setup, p: Pointers, c: Core, reload: bool, k: nat): Word
    requires s.Sized()
  {
    var w := After(s, p, c, reload, k + 1).core;
    BlitFunc(AHeld(s, p, c, reload, k + 1)[k], w.bhold, w.cdat, s.mt)
  }

  /** Every word of the blit comes from the shifted stream. */
  lemma WordFromStream(s: Setup, p: Pointers, c: Core, reload: bool, k: nat)
    requires s.Sized()
    ensures var w, w1 := After(s, p, c, reload, k), After(s, p, c, reload, k + 1);
            w1.word == if s.fill then WordFill(Raw(s, p, c, reload, k), w.core.fc, s.ife).0 else Raw(s, p, c, reload, k)
    ensures var w, w1 := After(s, p, c, reload, k), After(s, p, c, reload, k + 1);
            !(reload && (k + 1) % s.h == 0) ==>
            w1.core.fc == if s.fill then WordFill(Raw(s, p, c, reload, k), w.core.fc, s.ife).1 else w.core.fc
  {
    hide BlitFunc, Shifted, Masked, WordFill, Flush, At, Read;
    var w, w1 := After(s, p, c, reload, k), After(s, p, c, reload, k + 1);
    var l := Loaded(s, p, w, k);
    assert l.preva == w.core.preva && l.fc == w.core.fc;
    var r := DoBlit(s, l, k % s.h);
    assert w1.core == r.0.(fc := w1.core.fc) && w1.word == r.1;
    assert AHeld(s, p, c, reload, k + 1)[k] == Shifted(s.desc, s.ashift, w.core.preva, w1.core.preva);
  }

  /** The first `i` words of row `j` as stored, and before the fill. */
  function RowStored(s: Setup, p: Pointers, c: Core, j: nat, i: nat): seq<Word>
    requires s.Sized()
  {
    if i == 0 then [] else
      RowStored(s, p, c, j, i - 1) + [After(s, p, c, true, FastRefines.WordNo(s, j, i - 1) + 1).word]
  }

  function RowRaw(s: Setup, p: Pointers, c: Core, j: nat, i: nat): seq<Word>
    requires s.Sized()
  {
    if i == 0 then [] else RowRaw(s, p, c, j, i - 1) + [Raw(s, p, c, true, FastRefines.WordNo(s, j, i - 1))]
  }

  lemma {:induction false} RowFillAppend(ws: seq<Word>, w: Word, fc: bool, ife: bool)
    ensures var (r, c) := RowFill(ws, fc, ife);
            RowFill(ws + [w], fc, ife) == (r + [WordFill(w, c, ife).0], WordFill(w, c, ife).1)
  {
    hide WordFill;
    if ws == [] {
      assert ws + [w] == [w];
      assert [w][1..] == [];
      var (x, fc1) := WordFill(w, fc, ife);
      assert RowFill([w], fc, ife) == ([x] + RowFill([], fc1, ife).0, RowFill([], fc1, ife).1);
      assert [x] + [] == [x] == [] + [x];
    } else {
      assert (ws + [w])[1..] == ws[1..] + [w];
      var (w0, fc1) := WordFill(ws[0], fc, ife);
      RowFillAppend(ws[1..], w, fc1, ife);
      var (rest, c) := RowFill(ws[1..], fc1, ife);
      assert RowFill(ws, fc, ife) == ([w0] + rest, c);
      assert [w0] + (rest + [WordFill(w, c, ife).0]) == ([w0] + rest) + [WordFill(w, c, ife).0];
    }
  }

  lemma {:induction false} RowSoFar(s: Setup, p: Pointers, c: Core, j: nat, i: nat)
    requires s.Sized() && s.fill && i <= s.h
    ensures RowStored(s, p, c, j, i) == RowFill(RowRaw(s, p, c, j, i), s.carryIn, s.ife).0
    ensures i < s.h ==> After(s, p, c, true, FastRefines.WordNo(s, j, i)).core.fc ==
                        RowFill(RowRaw(s, p, c, j, i), s.carryIn, s.ife).1
  {
    hide WordFill, Raw, DoBlit, Loaded, After, RowFill;
    if i == 0 {
      EmptyRow(s, p, c, j);
      FastRefines.FreshRowCarry(s, p, c, j);
      assert RowFill(RowRaw(s, p, c, j, i), s.carryIn, s.ife) == ([], s.carryIn);
      assert After(s, p, c, true, FastRefines.WordNo(s, j, i)).core.fc == s.carryIn;
    } else {
      var k := FastRefines.WordNo(s, j, i - 1);
      RowSoFar(s, p, c, j, i - 1);
      WordFromStream(s, p, c, true, k);
      RowFillAppend(RowRaw(s, p, c, j, i - 1), Raw(s, p, c, true, k), s.carryIn, s.ife);
      if i < s.h {
        FastRefines.RowCol(s.h, j, i);
      }
      assert k + 1 == FastRefines.WordNo(s, j, i);
    }
  }

  lemma EmptyRow(s: Setup, p: Pointers, c: Core, j: nat)
    requires s.Sized()
    ensures RowStored(s, p, c, j, 0) == [] && RowFill(RowRaw(s, p, c, j, 0), s.carryIn, s.ife) == ([], s.carryIn)
  {
  }

  /** Each row a filling blit stores is one bit-serial fill of the row of minterm results, carry and all. */
  lemma RowsAreFilledSerially(s: Setup, p: Pointers, c: Core, j: nat)
    requires s.Sized() && s.fill
    ensures RowBits(RowStored(s, p, c, j, s.h)) == Fill(RowBits(RowRaw(s, p, c, j, s.h)), s.carryIn, s.ife)
  {
    hide RowFill, Raw;
    RowSoFar(s, p, c, j, s.h);
    RowFillIsSerial(RowRaw(s, p, c, j, s.h), s.carryIn, s.ife);
  }
}
