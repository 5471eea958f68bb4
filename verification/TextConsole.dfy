/** The hardware text console (boards/tang_mega_138k/system16/linux/kernel/s16text_con.c): a
    write-only cell array that mirrors the VT layer's shadow buffer. */
module TextConsole {
  type cell = x: int | 0 <= x < 0x10000

  datatype Scroll = Up | Down | OtherDir

  /** `s` with everything from `at` on replaced by `p`, for the length of `p`. */
  function Put(s: seq<cell>, at: nat, p: seq<cell>): (r: seq<cell>)
    requires at + |p| <= |s|
    ensures |r| == |s|
  {
    s[..at] + p + s[at + |p|..]
  }

  function Blank(erase: cell, n: nat): (r: seq<cell>)
    ensures |r| == n && forall k :: 0 <= k < n ==> r[k] == erase
  {
    seq(n, _ => erase)
  }

  lemma PutNothing(s: seq<cell>, at: nat, src: nat)
    requires at <= |s| && src <= |s|
    ensures Put(s, at, s[src..src]) == s
  {
  }

  /** Copying one more cell at either end of a partial copy. */
  lemma PutMore(s: seq<cell>, dst: nat, src: nat, lo: nat, hi: nat, read: nat)
    requires lo <= hi && dst + hi <= |s| && src + hi <= |s| && read < |s|
    ensures read < dst + lo || read >= dst + hi ==> Put(s, dst + lo, s[src + lo..src + hi])[read] == s[read]
    ensures dst + hi < |s| && src + hi < |s| ==>
              Put(s, dst + lo, s[src + lo..src + hi])[dst + hi := s[src + hi]] ==
                Put(s, dst + lo, s[src + lo..src + hi + 1])
    ensures lo > 0 ==>
              Put(s, dst + lo, s[src + lo..src + hi])[dst + lo - 1 := s[src + lo - 1]]
              == Put(s, dst + lo - 1, s[src + lo - 1..src + hi])
  {
  }

  /** The cells `lo..hi` moved up or down by `n`, with the rest of them erased. */
  function Moved(s: seq<cell>, lo: nat, hi: nat, dir: Scroll, n: nat, erase: cell): (r: seq<cell>)
    requires lo + n <= hi <= |s| && dir != OtherDir
    ensures |r| == |s|
  {
    if dir == Up then s[..lo] + s[lo + n..hi] + Blank(erase, n) + s[hi..]
    else s[..lo] + Blank(erase, n) + s[lo..hi - n] + s[hi..]
  }

  lemma JoinAt(a: seq<cell>, b: seq<cell>, c: seq<cell>, d: seq<cell>, at: nat)
    requires at < |a| + |b| + |c| + |d|
    ensures (a + b + c + d)[at] ==
            if at < |a| then a[at]
            else if at < |a| + |b| then b[at - |a|]
            else if at < |a| + |b| + |c| then c[at - |a| - |b|]
            else d[at - |a| - |b| - |c|]
  {
  }

  lemma MovedAt(s: seq<cell>, lo: nat, hi: nat, dir: Scroll, n: nat, erase: cell, at: nat)
    requires lo + n <= hi <= |s| && dir != OtherDir && at < |s|
    ensures Moved(s, lo, hi, dir, n, erase)[at] ==
            if at < lo || at >= hi then s[at]
            else if dir == Up then if at < hi - n then s[at + n] else erase
            else if at >= lo + n then s[at - n] else erase
  {
    if dir == Up {
      UpAt(s, lo, hi, n, erase, at);
    } else {
      DownAt(s, lo, hi, n, erase, at);
    }
  }

  lemma UpAt(s: seq<cell>, lo: nat, hi: nat, n: nat, erase: cell, at: nat)
    requires lo + n <= hi <= |s| && at < |s|
    ensures (s[..lo] + s[lo + n..hi] + Blank(erase, n) + s[hi..])[at] ==
            if at < lo || at >= hi then s[at] else if at < hi - n then s[at + n] else erase
  {
    hide Blank;
    JoinAt(s[..lo], s[lo + n..hi], Blank(erase, n), s[hi..], at);
  }

  lemma DownAt(s: seq<cell>, lo: nat, hi: nat, n: nat, erase: cell, at: nat)
    requires lo + n <= hi <= |s| && at < |s|
    ensures (s[..lo] + Blank(erase, n) + s[lo..hi - n] + s[hi..])[at] ==
            if at < lo || at >= hi then s[at] else if at >= lo + n then s[at - n] else erase
  {
    hide Blank;
    JoinAt(s[..lo], Blank(erase, n), s[lo..hi - n], s[hi..], at);
  }

  /** The two steps of the driver, a move and a fill, are the scroll. */
  lemma MoveAndFill(s: seq<cell>, lo: nat, hi: nat, dir: Scroll, n: nat, erase: cell)
    requires lo + n <= hi <= |s| && dir != OtherDir
    ensures dir == Up ==>
              Put(Put(s, lo, s[lo + n..hi]), hi - n, Blank(erase, n)) == Moved(s, lo, hi, dir, n, erase)
    ensures dir == Down ==>
              Put(Put(s, lo + n, s[lo..hi - n]), lo, Blank(erase, n)) == Moved(s, lo, hi, dir, n, erase)
  {
  }

  /** The first cell of a line. */
  function Line(row: nat, cols: nat): nat { row * cols }

  /** The screen after lines `top..bottom` have moved by `nr` lines. */
  function Scrolled(s: seq<cell>, cols: nat, top: nat, bottom: nat, dir: Scroll, nr: nat, erase: cell): (r: seq<cell>)
    requires top <= bottom && nr <= bottom - top && Line(bottom, cols) <= |s| && dir != OtherDir
    ensures |r| == |s|
  {
    Lines(top + nr, bottom, cols);
    LineSums(top, bottom, nr, cols);
    Moved(s, Line(top, cols), Line(bottom, cols), dir, Line(nr, cols), erase)
  }

  lemma Lines(a: nat, b: nat, cols: nat)
    requires a <= b
    ensures Line(a, cols) <= Line(b, cols)
  {
  }

  lemma NextLine(row: nat, cols: nat)
    ensures Line(row + 1, cols) == Line(row, cols) + cols
  {
  }

  lemma LineSums(top: nat, bottom: nat, nr: nat, cols: nat)
    requires top + nr <= bottom
    ensures Line(top + nr, cols) == Line(top, cols) + Line(nr, cols)
            && Line(bottom - nr, cols) == Line(bottom, cols) - Line(nr, cols)
    ensures Line(bottom - top - nr, cols) == Line(bottom, cols) - Line(top, cols) - Line(nr, cols)
  {
  }

  /** Which line a cell is in decides how it compares with the start of any other line. */
  lemma LineOf(row: nat, col: nat, cols: nat, line: nat)
    requires col < cols
    ensures row < line <==> Line(row, cols) + col < Line(line, cols)
  {
    if row < line {
      Lines(row + 1, line, cols);
      assert Line(row + 1, cols) == Line(row, cols) + cols;
    } else {
      Lines(line, row, cols);
    }
  }

  /** Every cell of a scrolled screen, by line: moved by `nr` lines, erased, or as before. */
  lemma ScrolledLine(s: seq<cell>, cols: nat, top: nat, bottom: nat, dir: Scroll, nr: nat, erase: cell, row: nat,
                     col: nat)
    requires top <= bottom && nr <= bottom - top && Line(bottom, cols) <= |s| && dir != OtherDir
    requires col < cols && Line(row, cols) + col < |s|
    ensures var r := Scrolled(s, cols, top, bottom, dir, nr, erase);
            var at := Line(row, cols) + col;
            if row < top || row >= bottom then r[at] == s[at]
            else if dir == Up && row < bottom - nr then at + Line(nr, cols) < |s| && r[at] == s[at + Line(nr, cols)]
            else if dir == Down && row >= top + nr then 0 <= at - Line(nr, cols) && r[at] == s[at - Line(nr, cols)]
            else r[at] == erase
  {
    hide Moved;
    Lines(top + nr, bottom, cols);
    LineSums(top, bottom, nr, cols);
    LineOf(row, col, cols, top);
    LineOf(row, col, cols, bottom);
    LineOf(row, col, cols, bottom - nr);
    LineOf(row, col, cols, top + nr);
    MovedAt(s, Line(top, cols), Line(bottom, cols), dir, Line(nr, cols), erase, Line(row, cols) + col);
  }

  /** Redrawing the moved cells is enough: the others have not changed. */
  lemma ScrollMirrored(s: seq<cell>, hw: seq<cell>, lo: nat, hi: nat, dir: Scroll, n: nat, erase: cell)
    requires lo + n <= hi <= |s| == |hw| && dir != OtherDir
    ensures hw == s ==>
              Put(hw, lo, Moved(s, lo, hi, dir, n, erase)[lo..hi]) == Moved(s, lo, hi, dir, n, erase)
  {
  }

  // ------------------------------------------------------------------- whole runs

  /** What the VT layer asks for. Its scrolls have no third direction. */
  datatype Op =
    | Erase(y: nat, x: nat, count: nat, erase: cell)
    | Char(y: nat, x: nat, ca: cell)
    | Text(y: nat, x: nat, text: seq<cell>)
    | Lift(top: nat, bottom: nat, dir: Scroll, nr: nat, erase: cell)

  /** The operation stays on the screen. */
  predicate Fits(op: Op, rows: nat, cols: nat) {
    match op
    case Erase(y, x, count, _) => Line(y, cols) + x + count <= Line(rows, cols)
    case Char(y, x, _) => Line(y, cols) + x < Line(rows, cols)
    case Text(y, x, text) => Line(y, cols) + x + |text| <= Line(rows, cols)
    case Lift(top, bottom, dir, nr, _) => top <= bottom <= rows && nr <= bottom - top && dir != OtherDir
  }

  /** The VT layer's shadow buffer after an operation. */
  function AfterOp(s: seq<cell>, rows: nat, cols: nat, op: Op): (r: seq<cell>)
    requires |s| == Line(rows, cols) && Fits(op, rows, cols)
    ensures |r| == |s|
  {
    match op
    case Erase(y, x, count, erase) => Put(s, Line(y, cols) + x, Blank(erase, count))
    case Char(y, x, ca) => Put(s, Line(y, cols) + x, [ca])
    case Text(y, x, text) => Put(s, Line(y, cols) + x, text)
    case Lift(top, bottom, dir, nr, erase) =>
      Lines(bottom, rows, cols);
      Scrolled(s, cols, top, bottom, dir, nr, erase)
  }

  function AfterOps(s: seq<cell>, rows: nat, cols: nat, ops: seq<Op>): (r: seq<cell>)
    requires |s| == Line(rows, cols) && forall op <- ops :: Fits(op, rows, cols)
    ensures |r| == |s|
  {
    if ops == [] then s
    else AfterOp(AfterOps(s, rows, cols, ops[..|ops| - 1]), rows, cols, ops[|ops| - 1])
  }

  /** The cells an operation may change. */
  predicate Touches(op: Op, cols: nat, at: nat) {
    match op
    case Erase(y, x, count, _) => Line(y, cols) + x <= at < Line(y, cols) + x + count
    case Char(y, x, _) => at == Line(y, cols) + x
    case Text(y, x, text) => Line(y, cols) + x <= at < Line(y, cols) + x + |text|
    case Lift(top, bottom, _, _, _) => Line(top, cols) <= at < Line(bottom, cols)
  }

  lemma OpKeeps(s: seq<cell>, rows: nat, cols: nat, op: Op, at: nat)
    requires |s| == Line(rows, cols) && Fits(op, rows, cols) && at < |s| && !Touches(op, cols, at)
    ensures AfterOp(s, rows, cols, op)[at] == s[at]
  {
    hide Moved;
    if op.Lift? {
      Lines(op.bottom, rows, cols);
      Lines(op.top + op.nr, op.bottom, cols);
      LineSums(op.top, op.bottom, op.nr, cols);
      MovedAt(s, Line(op.top, cols), Line(op.bottom, cols), op.dir, Line(op.nr, cols), op.erase, at);
    }
  }

  /** A text stays readable until something touches it. */
  lemma {:induction false} TextStays(s: seq<cell>, rows: nat, cols: nat, ops: seq<Op>, i: nat, k: nat)
    requires |s| == Line(rows, cols) && forall op <- ops :: Fits(op, rows, cols)
    requires i < |ops| && ops[i].Text? && k < |ops[i].text|
    requires forall j | i < j < |ops| :: !Touches(ops[j], cols, Line(ops[i].y, cols) + ops[i].x + k)
    ensures Line(ops[i].y, cols) + ops[i].x + k < |s|
    ensures AfterOps(s, rows, cols, ops)[Line(ops[i].y, cols) + ops[i].x + k] == ops[i].text[k]
    decreases |ops|
  {
    hide Line, Touches;
    var n := |ops| - 1;
    var before := AfterOps(s, rows, cols, ops[..n]);
    if i < n {
      TextStays(s, rows, cols, ops[..n], i, k);
      OpKeeps(before, rows, cols, ops[n], Line(ops[i].y, cols) + ops[i].x + k);
    } else {
      assert Fits(ops[n], rows, cols);
      assert AfterOp(before, rows, cols, ops[n]) == Put(before, Line(ops[n].y, cols) + ops[n].x, ops[n].text);
    }
  }

  class Console {
    const cols: nat
    const rows: nat
    /** The hardware cells and the VT layer's shadow buffer. */
    const cells: array<cell>
    const shadow: array<cell>

    ghost predicate Valid() {
      cells != shadow && cells.Length == shadow.Length == Line(rows, cols)
    }

    /** What the display shows is what the VT layer believes. */
    ghost predicate Mirrored()
      reads cells, shadow
    {
      cells[..] == shadow[..]
    }

    constructor (cols: nat, rows: nat)
      ensures Valid() && this.cols == cols && this.rows == rows && fresh(cells) && fresh(shadow)
    {
      this.cols, this.rows := cols, rows;
      cells, shadow := new cell[Line(rows, cols)](_ => 0x0720), new cell[Line(rows, cols)](_ => 0x0720);
    }

    /** Erases `count` cells. */
    method Clear(y: nat, x: nat, count: nat, erase: cell)
      requires Valid() && Line(y, cols) + x + count <= cells.Length
      modifies cells
      ensures cells[..] == Put(old(cells[..]), Line(y, cols) + x, Blank(erase, count))
    {
      var start := Line(y, cols) + x;
      var idx, left := start, count;
      while left > 0
        invariant idx + left == start + count && 0 <= left <= count
        invariant forall k :: 0 <= k < cells.Length ==>
                    cells[k] == if start <= k < idx then erase else old(cells[k])
      {
        cells[idx] := erase;
        idx, left := idx + 1, left - 1;
      }
    }

    method Putc(ca: cell, y: nat, x: nat)
      requires Valid() && Line(y, cols) + x < cells.Length
      modifies cells
      ensures cells[..] == Put(old(cells[..]), Line(y, cols) + x, [ca])
    {
      cells[Line(y, cols) + x] := ca;
    }

    method Putcs(s: seq<cell>, y: nat, x: nat)
      requires Valid() && Line(y, cols) + x + |s| <= cells.Length
      modifies cells
      ensures cells[..] == Put(old(cells[..]), Line(y, cols) + x, s)
    {
      var start := Line(y, cols) + x;
      var i := 0;
      while i < |s|
        invariant 0 <= i <= |s|
        invariant forall k :: 0 <= k < cells.Length ==>
                    cells[k] == if start <= k < start + i then s[k - start] else old(cells[k])
      {
        cells[start + i] := s[i];
        i := i + 1;
      }
    }

    /** `memmove` inside the shadow buffer: the regions may overlap. */
    method MoveShadow(dst: nat, src: nat, n: nat)
      requires Valid() && dst + n <= shadow.Length && src + n <= shadow.Length
      modifies shadow
      ensures shadow[..] == Put(old(shadow[..]), dst, old(shadow[src..src + n]))
    {
      if dst <= src {
        MoveForward(dst, src, n);
      } else {
        MoveBackward(dst, src, n);
      }
    }

    method MoveForward(dst: nat, src: nat, n: nat)
      requires Valid() && dst <= src && src + n <= shadow.Length
      modifies shadow
      ensures shadow[..] == Put(old(shadow[..]), dst, old(shadow[src..src + n]))
    {
      hide Put;
      ghost var was := shadow[..];
      PutNothing(was, dst, src);
      for i := 0 to n
        invariant shadow[..] == Put(was, dst, was[src..src + i])
      {
        PutMore(was, dst, src, 0, i, src + i);
        CopyCell(dst + i, src + i);
      }
    }

    method MoveBackward(dst: nat, src: nat, n: nat)
      requires Valid() && src <= dst && dst + n <= shadow.Length
      modifies shadow
      ensures shadow[..] == Put(old(shadow[..]), dst, old(shadow[src..src + n]))
    {
      hide Put;
      ghost var was := shadow[..];
      PutNothing(was, dst + n, src + n);
      for i := n downto 0
        invariant shadow[..] == Put(was, dst + i, was[src + i..src + n])
      {
        PutMore(was, dst, src, i + 1, n, src + i);
        CopyCell(dst + i, src + i);
      }
    }

    method CopyCell(to: nat, from: nat)
      requires to < shadow.Length && from < shadow.Length
      modifies shadow
      ensures shadow[..] == old(shadow[..])[to := old(shadow[..])[from]]
    {
      shadow[to] := shadow[from];
    }

    method FillShadow(at: nat, v: cell, n: nat)
      requires Valid() && at + n <= shadow.Length
      modifies shadow
      ensures shadow[..] == Put(old(shadow[..]), at, Blank(v, n))
    {
      for i := 0 to n
        invariant forall k :: 0 <= k < shadow.Length ==> shadow[k] == if at <= k < at + i then v else old(shadow[k])
      {
        shadow[at + i] := v;
      }
    }

    /** Scrolls the shadow buffer and redraws the affected lines. Lines outside the region
        are left alone in both buffers. */
    method DoScroll(top: nat, bottom: nat, dir: Scroll, nr: nat, erase: cell) returns (done: bool)
      requires Valid() && top <= bottom <= rows && nr <= bottom - top
      modifies cells, shadow
      ensures done <==> dir != OtherDir
      ensures !done ==> cells[..] == old(cells[..]) && shadow[..] == old(shadow[..])
      ensures done ==> Line(bottom, cols) <= cells.Length && Line(top, cols) <= Line(bottom, cols)
      ensures done ==> shadow[..] == Scrolled(old(shadow[..]), cols, top, bottom, dir, nr, erase)
      ensures done ==> cells[..] == Put(old(cells[..]), Line(top, cols), shadow[Line(top, cols)..Line(bottom, cols)])
      ensures old(Mirrored()) ==> Mirrored()
    {
      hide Moved, Put, Line;
      if dir != Up && dir != Down {
        return false;
      }
      LineSums(top, bottom, nr, cols);
      Lines(top, bottom, cols);
      Lines(bottom, rows, cols);
      Lines(top, top + nr, cols);
      Lines(top + nr, bottom, cols);
      var src, clear, dst := Line(top, cols), Line(top, cols), Line(top + nr, cols);
      if dir == Up {
        clear := src + Line(bottom - top - nr, cols);
        src, dst := dst, src;
      }
      ghost var before := shadow[..];
      MoveShadow(dst, src, Line(bottom - top - nr, cols));
      FillShadow(clear, erase, Line(nr, cols));
      MoveAndFill(before, Line(top, cols), Line(bottom, cols), dir, Line(nr, cols), erase);
      ghost var hw := cells[..];
      Redraw(top, bottom);
      ScrollMirrored(before, hw, Line(top, cols), Line(bottom, cols), dir, Line(nr, cols), erase);
      return true;
    }

    method Redraw(top: nat, bottom: nat)
      requires Valid() && top <= bottom <= rows
      modifies cells
      ensures Line(top, cols) <= Line(bottom, cols) <= cells.Length
      ensures cells[..] == Put(old(cells[..]), Line(top, cols), shadow[Line(top, cols)..Line(bottom, cols)])
    {
      hide Line;
      Lines(top, bottom, cols);
      Lines(bottom, rows, cols);
      for r := top to bottom
        invariant Line(top, cols) <= Line(r, cols) <= Line(bottom, cols)
        invariant forall k :: 0 <= k < cells.Length ==>
                    cells[k] == if Line(top, cols) <= k < Line(r, cols) then shadow[k] else old(cells[k])
      {
        Lines(r + 1, bottom, cols);
        NextLine(r, cols);
        var idx := Line(r, cols);
        for c := 0 to cols
          invariant forall k :: 0 <= k < cells.Length ==>
                      cells[k] == if Line(top, cols) <= k < idx + c then shadow[k] else old(cells[k])
        {
          cells[idx + c] := shadow[idx + c];
        }
      }
    }

    /** What the VT layer does itself for a put: it stores the cells in its own buffer. */
    method StoreShadow(at: nat, s: seq<cell>)
      requires Valid() && at + |s| <= shadow.Length
      modifies shadow
      ensures shadow[..] == Put(old(shadow[..]), at, s)
    {
      for i := 0 to |s|
        invariant forall k :: 0 <= k < shadow.Length ==>
                    shadow[k] == if at <= k < at + i then s[k - at] else old(shadow[k])
      {
        shadow[at + i] := s[i];
      }
    }

    /** One operation of the VT layer: its own update of the shadow buffer, and the driver's
        call, which does both for a scroll. */
    method Perform(op: Op)
      requires Valid() && Mirrored() && Fits(op, rows, cols)
      modifies cells, shadow
      ensures Mirrored() && shadow[..] == AfterOp(old(shadow[..]), rows, cols, op)
    {
      hide Line, Put, Moved;
      match op {
        case Erase(y, x, count, erase) =>
          FillShadow(Line(y, cols) + x, erase, count);
          Clear(y, x, count, erase);
        case Char(y, x, ca) =>
          StoreShadow(Line(y, cols) + x, [ca]);
          Putc(ca, y, x);
        case Text(y, x, text) =>
          StoreShadow(Line(y, cols) + x, text);
          Putcs(text, y, x);
        case Lift(top, bottom, dir, nr, erase) =>
          var _ := DoScroll(top, bottom, dir, nr, erase);
      }
    }

    /** Whatever the sequence of puts, clears and scrolls, the display shows the VT layer's
        buffer. */
    method Run(ops: seq<Op>)
      requires Valid() && Mirrored() && forall op <- ops :: Fits(op, rows, cols)
      modifies cells, shadow
      ensures Mirrored() && shadow[..] == AfterOps(old(shadow[..]), rows, cols, ops)
    {
      hide Fits, AfterOp;
      for i := 0 to |ops|
        invariant Mirrored() && shadow[..] == AfterOps(old(shadow[..]), rows, cols, ops[..i])
      {
        Perform(ops[i]);
        assert ops[..i + 1][..i] == ops[..i];
      }
      assert ops[..|ops|] == ops;
    }
  }
}
