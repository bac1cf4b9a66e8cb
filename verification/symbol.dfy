/**
 * What the external `qrcodegen` encoder hands back. The encoding algorithm
 * itself is not part of this model: it enters as a parameter of type
 * `Encoder`.
 */
module Symbol {

  import opened Wrappers
  import opened Normalize

  /**
   * A `qrcodegen.QrCode`: side length, version, mask and the module grid,
   * indexed `modules[y][x]` as `getModule(x, y)` reads it.
   */
  datatype QrSymbol = QrSymbol(size: nat, version: nat, mask: nat, modules: seq<seq<bool>>)
  {
    /** The grid is `size` rows of `size` modules each. */
    predicate Square()
    {
      |modules| == size && forall y | 0 <= y < |modules| :: |modules[y]| == size
    }

    /** `getModule(x, y)` for coordinates inside the symbol. */
    function Module(x: nat, y: nat): bool
      requires Square() && x < size && y < size
    {
      modules[y][x]
    }
  }

  /** Every symbol the encoder produces is square. */
  type QrCode = q: QrSymbol | q.Square() witness QrSymbol(0, 1, 0, [])

  /**
   * `qrcodegen.QrCode.encodeText(text, ecl)`: a symbol, or the message of
   * the exception it throws (text over capacity, for instance).
   */
  type Encoder = (string, Ecc) -> Result<QrCode, string>
}
