/**
 * The intermediate form shared by the folding lexer, the tape VM and the
 * transpiler of src/brainfork.c, with the small value types they use.
 */
module Instructions {

  /** One tape cell. The source's `char` cells are modelled by their byte value. */
  type Byte = b: int | 0 <= b < 256

  /** Truncating an integer to a `char` cell keeps it modulo 256. */
  function ToByte(x: int): (b: Byte)
    ensures (b - x) % 256 == 0
  {
    x % 256
  }

  /** Number of cells of the tape used by every caller of the VM (BF_MEMORY_STRIP_SIZE). */
  const MemoryStripSize: nat := 1024

  /** Capacity the instruction buffer starts with (BF_BUFFER_INITIAL_CAP). */
  const BufferInitialCap: nat := 64

  /**
   * An `Instruction` of src/brainfork.c: the operation tag and the union payload
   * that operation uses. `BracketOpen` keeps its own index in the buffer
   * (`_position`), `BracketClosed` the index of its open (`_point_to`).
   */
  datatype Instruction =
    | Write(inc: int)
    | BracketOpen(position: nat)
    | BracketClosed(pointTo: nat)
    | Print
    | Shift(mov: int)

  /** Why a compilation fails; the source prints a message and returns NULL. */
  datatype ParseError =
    | UnknownToken(token: char)
    | UnmatchedClose
    | UnmatchedOpen

  datatype Result<T> = Ok(value: T) | Err(error: ParseError)

  /** A pointer that may be NULL. */
  datatype Option<T> = None | Some(value: T)

  /** The capacity of the instruction buffer after `k` doublings, never below the initial one. */
  function Capacity(k: nat): (r: nat)
    ensures r >= BufferInitialCap
  {
    if k == 0 then BufferInitialCap else 2 * Capacity(k - 1)
  }

  /** Number of occurrences of `c` in `w[s..k]`. */
  function Count(c: char, w: seq<char>, s: nat, k: nat): (n: nat)
    requires s <= k <= |w|
    ensures n <= k - s
    decreases k - s
  {
    if s == k then 0 else (if w[s] == c then 1 else 0) + Count(c, w, s + 1, k)
  }
}
