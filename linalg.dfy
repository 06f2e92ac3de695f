/** The byte grid `u8::Matrix` of `src/linalg.rs`: `width × height` cells stored row
    by row in one vector, cell `(x, y)` at position `y * width + x`. */
module Linalg {
  import opened Wrappers

  newtype u8 = x: int | 0 <= x < 0x100

  datatype LinalgError = SizeMismatch

  // ---------------------------------------------------------------------------
  // Row-major index arithmetic
  // ---------------------------------------------------------------------------

  /** Row `y` of a grid with `height` rows ends inside the grid. */
  lemma RowInBounds(width: nat, height: nat, y: nat)
    ensures y < height ==> y * width + width <= width * height
  {
    if y < height {
      calc {
        y * width + width;
      ==
        (y + 1) * width;
      <= { MulMonotone(y + 1, height, width); }
        height * width;
      }
    }
  }

  lemma MulMonotone(a: nat, b: nat, c: nat)
    requires a <= b
    ensures a * c <= b * c
  {
  }

  /** A cell inside the grid has its position inside the data. */
  lemma CellInBounds(width: nat, height: nat, x: nat, y: nat)
    requires x < width && y < height
    ensures y * width + x < width * height
  {
    RowInBounds(width, height, y);
  }

  /** Distinct cells have distinct positions. */
  lemma CellPositionInjective(width: nat, x1: nat, y1: nat, x2: nat, y2: nat)
    requires x1 < width && x2 < width
    requires y1 * width + x1 == y2 * width + x2
    ensures x1 == x2 && y1 == y2
  {
    if y1 < y2 {
      MulMonotone(y1 + 1, y2, width);
      assert false;
    } else if y2 < y1 {
      MulMonotone(y2 + 1, y1, width);
      assert false;
    }
  }

  /** Every position of the data is the position of exactly the cell
      `(k % width, k / width)`. */
  lemma CellAtPosition(width: nat, height: nat, k: nat)
    requires k < width * height
    ensures width > 0
    ensures k % width < width && k / width < height
    ensures (k / width) * width + k % width == k
  {
  }

  /** The concatenation of a sequence of rows, in order. */
  function Flatten(rows: seq<seq<u8>>): seq<u8>
  {
    if rows == [] then [] else Flatten(rows[..|rows| - 1]) + rows[|rows| - 1]
  }

  /** Row `i` of `rows` is the `i`-th `width`-long stretch of `cells`, for every `i`. */
  predicate ConsecutiveRows(cells: seq<u8>, width: nat, rows: seq<seq<u8>>) {
    forall i | 0 <= i < |rows| ::
      i * width + width <= |cells| && rows[i] == cells[i * width .. i * width + width]
  }

  lemma NextRowStart(k: nat, width: nat)
    requires k > 0
    ensures (k - 1) * width + width == k * width
  {
  }

  /** Rows cut from consecutive `width`-long stretches of `cells` concatenate back to
      the prefix of `cells` they cover. */
  lemma {:induction false} FlattenConsecutiveRows(cells: seq<u8>, width: nat, rows: seq<seq<u8>>, k: nat)
    requires k <= |rows| && ConsecutiveRows(cells, width, rows)
    ensures k * width <= |cells|
    ensures Flatten(rows[..k]) == cells[..k * width]
    decreases k
  {
    if k > 0 {
      FlattenConsecutiveRows(cells, width, rows, k - 1);
      var start := (k - 1) * width;
      NextRowStart(k, width);
      assert start + width <= |cells| && rows[k - 1] == cells[start .. start + width];
      assert rows[..k][..k - 1] == rows[..k - 1];
      calc {
        Flatten(rows[..k]);
      ==
        Flatten(rows[..k - 1]) + rows[k - 1];
      ==
        cells[..start] + cells[start .. k * width];
      ==
        cells[..k * width];
      }
    }
  }

  // ---------------------------------------------------------------------------
  // The grid
  // ---------------------------------------------------------------------------

  class Matrix {
    const width: nat
    const height: nat
    const data: array<u8>

    /** The data holds exactly one byte per cell. */
    ghost predicate Valid() {
      data.Length == width * height
    }

    /** `new`: a `width × height` grid with every cell `defaultValue`. */
    constructor (width: nat, height: nat, defaultValue: u8)
      ensures Valid() && fresh(data)
      ensures this.width == width && this.height == height
      ensures Size() == width * height
      ensures forall x: nat, y: nat | x < width && y < height :: Get(x, y) == Some(defaultValue)
    {
      this.width := width;
      this.height := height;
      data := new u8[width * height](_ => defaultValue);
    }

    /** The struct literal of `from_vec`: the grid over `cells`, taken as they are. */
    constructor FromCells(width: nat, height: nat, cells: seq<u8>)
      requires |cells| == width * height
      ensures Valid() && fresh(data)
      ensures this.width == width && this.height == height && data[..] == cells
    {
      this.width := width;
      this.height := height;
      data := new u8[|cells|](i requires 0 <= i < |cells| => cells[i]);
    }

    /** `from_vec`: the grid over `cells`, or `SizeMismatch` unless there is exactly one
        byte per cell. */
    static method FromVec(width: nat, height: nat, cells: seq<u8>) returns (r: Result<Matrix, LinalgError>)
      ensures r.Err? <==> |cells| != width * height
      ensures r.Err? ==> r.error == SizeMismatch
      ensures r.Ok? ==> fresh(r.value) && fresh(r.value.data) && r.value.Valid()
      ensures r.Ok? ==> r.value.width == width && r.value.height == height && r.value.data[..] == cells
    {
      if |cells| != width * height {
        return Err(SizeMismatch);
      }
      var m := new Matrix.FromCells(width, height, cells);
      return Ok(m);
    }

    function Width(): nat {
      width
    }

    function Height(): nat {
      height
    }

    /** `size`: the length of the data, which is one byte per cell. */
    function Size(): (n: nat)
      ensures Valid() ==> n == Width() * Height()
    {
      data.Length
    }

    /** `is_valid_index`: `(x, y)` is a cell of the grid, whose position then lies in the data. */
    predicate IsValidIndex(x: nat, y: nat)
      ensures IsValidIndex(x, y) ==> y * width + x < width * height
    {
      if x < width && y < height then CellInBounds(width, height, x, y); true else false
    }

    /** `get`: the byte of cell `(x, y)`, or `None` outside the grid. */
    function Get(x: nat, y: nat): (r: Option<u8>)
      requires Valid()
      reads data
      ensures r.None? <==> !IsValidIndex(x, y)
      ensures r.Some? ==> y * width + x < data.Length && r.value == data[y * width + x]
    {
      if !IsValidIndex(x, y) then None
      else
        CellInBounds(width, height, x, y);
        Some(data[y * width + x])
    }

    /** `get_mut`: the position in the data of cell `(x, y)`, which the returned mutable
        reference points to, or `None` outside the grid. */
    function GetMut(x: nat, y: nat): (r: Option<nat>)
      requires Valid()
      reads data
      ensures r.None? <==> !IsValidIndex(x, y)
      ensures r.Some? ==> r.value == y * width + x
      ensures r.Some? ==> r.value < data.Length && Get(x, y) == Some(data[r.value])
    {
      if !IsValidIndex(x, y) then None
      else
        CellInBounds(width, height, x, y);
        Some(y * width + x)
    }

    /** `get_row` as written: the guard lets `y == height` through, and the slice of that
        row then runs past the data whenever rows are not empty. */
    function GetRowAsWritten(y: nat): (r: Outcome<Option<seq<u8>>>)
      requires Valid()
      reads data
      ensures y < height ==> r == Returned(GetRow(y))
      ensures y > height ==> r == Returned(None)
      ensures y == height ==> r == if width > 0 then Panicked else Returned(Some([]))
    {
      if y > height then Returned(None)
      else
        var rowStart := y * width;
        RowInBounds(width, height, y);
        if rowStart + width <= data.Length then Returned(Some(data[rowStart .. rowStart + width]))
        else Panicked
    }

    /** `get_row` with the guard `y >= height`: the bytes of row `y`, or `None` past the
        last row. */
    function GetRow(y: nat): (r: Option<seq<u8>>)
      requires Valid()
      reads data
      ensures r.None? <==> y >= height
      ensures r.Some? ==> |r.value| == width && forall x: nat | x < width :: Get(x, y) == Some(r.value[x])
    {
      if y >= height then None
      else
        var rowStart := y * width;
        RowInBounds(width, height, y);
        Some(data[rowStart .. rowStart + width])
    }

    /** `set`: write `value` into cell `(x, y)`; outside the grid nothing happens. */
    method Set(x: nat, y: nat, value: u8)
      requires Valid()
      modifies data
      ensures Get(x, y) == if IsValidIndex(x, y) then Some(value) else None
      ensures forall x': nat, y': nat | x' != x || y' != y :: Get(x', y') == old(Get(x', y'))
      ensures IsValidIndex(x, y) ==> data[..] == old(data[..])[y * width + x := value]
      ensures !IsValidIndex(x, y) ==> data[..] == old(data[..])
    {
      var cell := GetMut(x, y);
      if cell.Some? {
        data[cell.value] := value;
        forall x': nat, y': nat | IsValidIndex(x', y') && (x' != x || y' != y)
          ensures y' * width + x' != cell.value
        {
          if y' * width + x' == y * width + x {
            CellPositionInjective(width, x', y', x, y);
          }
        }
      }
    }

    /** `iter`: the bytes of the grid, row after row. */
    function Iter(): (cells: seq<u8>)
      requires Valid()
      reads data
      ensures |cells| == Size()
      ensures forall x: nat, y: nat | IsValidIndex(x, y) ::
        GetMut(x, y).Some? && Get(x, y) == Some(cells[GetMut(x, y).value])
    {
      data[..]
    }

    /** `iter_rows`: row `i`, for every `i` below `height`, each got from `get_row` and
        unwrapped. */
    function IterRows(): (rows: seq<seq<u8>>)
      requires Valid()
      reads data
      ensures |rows| == height
      ensures forall i | 0 <= i < height :: GetRow(i) == Some(rows[i])
    {
      seq(height, i requires 0 <= i < height && Valid() reads data => GetRowAsWritten(i).value.value)
    }
  }

  /** The guard of `get_row` as written admits the row just past the last one; on a
      grid whose rows are not empty, reading it panics, where the corrected guard
      answers `None`. */
  lemma GetRowPastLastRowPanics(m: Matrix)
    requires m.Valid() && m.width > 0
    ensures m.GetRowAsWritten(m.height).Panicked?
    ensures m.GetRow(m.height) == None
  {
  }

  /** On a grid whose rows are empty, the guard of `get_row` as written lets the row just
      past the last one through without a panic: it reads as an empty row, where the
      corrected guard answers `None`. */
  lemma GetRowPastEmptyRowsIsEmpty(m: Matrix)
    requires m.Valid() && m.width == 0
    ensures m.GetRowAsWritten(m.height) == Returned(Some([]))
    ensures m.GetRow(m.height) == None
  {
  }

  /** Every byte `iter` yields is the byte of one cell: the one at column `k % width`
      of row `k / width`. */
  lemma IterVisitsEveryCell(m: Matrix, k: nat)
    requires m.Valid() && k < |m.Iter()|
    ensures m.width > 0 && m.IsValidIndex(k % m.width, k / m.width)
    ensures m.Get(k % m.width, k / m.width) == Some(m.Iter()[k])
  {
  }

  /** The rows `iter_rows` yields, concatenated in order, are the grid's data. */
  lemma IterRowsConcatenateToData(m: Matrix)
    requires m.Valid()
    ensures Flatten(m.IterRows()) == m.data[..]
  {
    var rows := m.IterRows();
    forall i | 0 <= i < |rows|
      ensures i * m.width + m.width <= |m.data[..]|
      ensures rows[i] == m.data[..][i * m.width .. i * m.width + m.width]
    {
      RowInBounds(m.width, m.height, i);
    }
    assert ConsecutiveRows(m.data[..], m.width, rows);
    FlattenConsecutiveRows(m.data[..], m.width, rows, |rows|);
    assert rows[..|rows|] == rows;
  }
}
