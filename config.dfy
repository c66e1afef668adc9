/**
 * The fixed configuration of the FooBar pipeline: the 32-bit unsigned word the
 * firmware counts in, the message the coordinator hands to the two workers, and
 * the queue capacities and buffer sizes that are part of the design.
 */
module Config {

  /** A `uint32_t`: the sequence counter, the queued start values and message values. */
  newtype u32 = x: int | 0 <= x < 0x1_0000_0000

  /** Capacity of the coordinator's request queue: 7 queued plus 1 active sequence. */
  const REQUEST_QUEUE_SIZE: nat := 7

  /** Capacity of the Foo worker's queue. */
  const FOO_QUEUE_SIZE: nat := 1

  /** Capacity of the Bar worker's queue. */
  const BAR_QUEUE_SIZE: nat := 1

  /** Size of each worker's line buffer. */
  const PRINT_BUFFER_SIZE: nat := 64

  /** Size of the serial receive buffer; at most one byte less is read, leaving room for the NUL. */
  const RX_BUF_SIZE: nat := 32

  /** Size of the buffer the serial module builds its "Received ..." echo in. */
  const ECHO_BUFFER_SIZE: nat := 50

  /** `foobarMsg_t`: a value to print and whether it is prime. */
  datatype Msg = Msg(value: u32, isPrime: bool)
}
