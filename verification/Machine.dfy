/** Words, bytes and pages of the 32-bit machine. */
module Machine {
  const WORD_RANGE := 0x1_0000_0000
  const PAGE := 0x1000

  type Word = w: nat | w < WORD_RANGE
  type Byte = b: nat | b < 256

  datatype Option<T> = None | Some(value: T)
}
