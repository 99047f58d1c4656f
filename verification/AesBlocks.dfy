/** Blocks of sixteen cells in four columns, for cells of any type. */
module AesBlocks {
  import opened AesRounds

  datatype Col<T> = Col(b0: T, b1: T, b2: T, b3: T)
  datatype Block<T> = Block(c0: Col<T>, c1: Col<T>, c2: Col<T>, c3: Col<T>)

  function ColAt<T>(b: Block<T>, j: nat): Col<T> {
    if j % 4 == 0 then b.c0 else if j % 4 == 1 then b.c1 else if j % 4 == 2 then b.c2 else b.c3
  }

  function MapCol<T, U>(f: T -> U, c: Col<T>): Col<U> {
    Col(f(c.b0), f(c.b1), f(c.b2), f(c.b3))
  }

  function MapBlock<T, U>(f: T -> U, b: Block<T>): Block<U> {
    Block(MapCol(f, b.c0), MapCol(f, b.c1), MapCol(f, b.c2), MapCol(f, b.c3))
  }

  function MapCols<T>(f: Col<T> -> Col<T>, b: Block<T>): Block<T> {
    Block(f(b.c0), f(b.c1), f(b.c2), f(b.c3))
  }

  function ZipCol<T>(f: (T, T) -> T, x: Col<T>, y: Col<T>): Col<T> {
    Col(f(x.b0, y.b0), f(x.b1, y.b1), f(x.b2, y.b2), f(x.b3, y.b3))
  }

  function ZipBlock<T>(f: (T, T) -> T, x: Block<T>, y: Block<T>): Block<T> {
    Block(ZipCol(f, x.c0, y.c0), ZipCol(f, x.c1, y.c1), ZipCol(f, x.c2, y.c2), ZipCol(f, x.c3, y.c3))
  }

  /** Row r is rotated by r columns: column j takes its cells from columns j to j + 3. */
  function ShiftedCol<T>(b: Block<T>, j: nat): Col<T> {
    Col(ColAt(b, j).b0, ColAt(b, j + 1).b1, ColAt(b, j + 2).b2, ColAt(b, j + 3).b3)
  }

  function ShiftRows<T>(b: Block<T>): Block<T> {
    Block(ShiftedCol(b, 0), ShiftedCol(b, 1), ShiftedCol(b, 2), ShiftedCol(b, 3))
  }

  function UnshiftedCol<T>(b: Block<T>, j: nat): Col<T> {
    Col(ColAt(b, j).b0, ColAt(b, j + 3).b1, ColAt(b, j + 2).b2, ColAt(b, j + 1).b3)
  }

  function InvShiftRows<T>(b: Block<T>): Block<T> {
    Block(UnshiftedCol(b, 0), UnshiftedCol(b, 1), UnshiftedCol(b, 2), UnshiftedCol(b, 3))
  }

  lemma UnshiftUndoesShift<T, U>(f: T -> U, b: Block<T>)
    ensures InvShiftRows(MapBlock(f, ShiftRows(b))) == MapBlock(f, b)
  {
  }

  lemma MapUndoes<T(!new), U>(f: T -> U, g: U -> T, b: Block<T>)
    requires forall x :: g(f(x)) == x
    ensures MapBlock(g, MapBlock(f, b)) == b
  {
  }

  lemma MapColsUndoes<T(!new)>(f: Col<T> -> Col<T>, g: Col<T> -> Col<T>, b: Block<T>)
    requires Undoes(g, f)
    ensures MapCols(g, MapCols(f, b)) == b
  {
  }

  lemma ZipCancels<T(!new)>(xor: (T, T) -> T, x: Block<T>, y: Block<T>)
    requires Cancels(xor)
    ensures ZipBlock(xor, ZipBlock(xor, x, y), y) == x
  {
  }

  lemma MapColsLinear<T(!new)>(f: Col<T> -> Col<T>, xor: (T, T) -> T, x: Block<T>, y: Block<T>)
    requires forall c, d :: f(ZipCol(xor, c, d)) == ZipCol(xor, f(c), f(d))
    ensures MapCols(f, ZipBlock(xor, x, y)) == ZipBlock(xor, MapCols(f, x), MapCols(f, y))
  {
  }
}
