/**
 * The serial feeder, `serial_postFoobarData`: read up to 31 bytes into the
 * receive buffer, terminate them with a NUL, validate them as one decimal
 * number, echo them, and post a non-zero value to the coordinator's request
 * queue without waiting. A value of 0 asks for a restart instead.
 */
module Serial {
  import opened Wrappers
  import opened Config
  import opened Queues
  import opened Decimal
  import opened LibC
  import opened Uart

  /** The value newlib gives ERANGE. */
  const ERANGE: int := 34

  const INVALID_DATA: string := "Invalid data"
  const QUEUE_FULL: string := "Currently full"
  const RECEIVED: string := "Received "

  /** The C string a buffer holds: everything before its first NUL. */
  function CString(buf: string): (s: string)
    ensures s <= buf && '\0' !in s
    ensures |s| < |buf| ==> buf[|s|] == '\0'
  {
    if buf == [] || buf[0] == '\0' then [] else [buf[0]] + CString(buf[1..])
  }

  /** A NUL at index n hides whatever the buffer holds after it. */
  lemma {:induction false} CStringOfTerminated(buf: string, n: nat)
    requires n < |buf| && buf[n] == '\0'
    ensures CString(buf) == CString(buf[..n])
    decreases n
  {
    if n > 0 && buf[0] != '\0' {
      assert buf[1..][..n - 1] == buf[..n][1..];
      CStringOfTerminated(buf[1..], n - 1);
    }
  }

  /** Storing a `long` into a `uint32_t`: reduction modulo 2^32. */
  function ToU32(v: int): (r: u32)
    ensures 0 <= v < 0x1_0000_0000 ==> r as int == v
    // C converts to an unsigned type modulo 2^32, negative values included
    ensures (r as int - v) % 0x1_0000_0000 == 0
  {
    (v % 0x1_0000_0000) as u32
  }

  /**
   * `serial_validateRxData` with `errno` cleared before the conversion: the
   * text is accepted when `strtol` raised no range error and stopped at the
   * terminating NUL, that is, consumed the whole text.
   */
  function Validate(text: string): Option<u32>
  {
    var c := StrToL(text);
    if !c.rangeError && c.end == |text| then Some(ToU32(c.value)) else None
  }

  /** A plain numeral up to LONG_MAX is accepted with its own value. */
  lemma ValidateNumeral(s: string)
    requires |s| >= 1 && AllDigits(s) && DigitsValue(s) <= LONG_MAX
    ensures Validate(s) == Some(DigitsValue(s) as u32)
  {
    NumeralConverts(s, []);
    assert s + [] == s;
  }

  /** Every value that fits a `long` survives printing it with %d and validating the text. */
  lemma ValidateRoundTrip(v: u32)
    requires v as int <= LONG_MAX
    ensures Validate(Dec(v as nat)) == Some(v)
  {
    DecRoundTrip(v as nat);
    ValidateNumeral(Dec(v as nat));
  }

  /** A numeral that does not fit a `long` is rejected. */
  lemma ValidateRejectsOverflow(s: string)
    requires |s| >= 1 && AllDigits(s) && DigitsValue(s) > LONG_MAX
    ensures Validate(s) == None
  {
    NumeralConverts(s, []);
    assert s + [] == s;
  }

  /** A numeral followed by anything else (a newline, a letter) is rejected. */
  lemma ValidateRejectsTrailing(s: string, tail: string)
    requires |s| >= 1 && AllDigits(s)
    requires tail != [] && !IsDigit(tail[0])
    ensures Validate(s + tail) == None
  {
    NumeralConverts(s, tail);
  }

  /** Text that starts with a letter is rejected. */
  lemma ValidateRejectsWord(s: string)
    requires s != [] && (('a' <= s[0] <= 'z') || ('A' <= s[0] <= 'Z'))
    ensures Validate(s) == None
  {
    NothingConverted(s);
  }

  /** Empty text converts nothing yet ends at the NUL, so it passes as 0. */
  lemma ValidateEmpty()
    ensures Validate("") == Some(0)
  {
  }

  /** A minus sign is accepted, and the negative `long` wraps to a large `uint32_t`. */
  lemma ValidateNegativeWraps()
    ensures Validate("-5") == Some(4294967291)
  {
    assert DigitsValue("5") == 5 by {
      assert "5"[..0] == [];
    }
    assert "-5"[1..] == "5";
    NegativeNumeralConverts("-5");
  }

  /** `serial_validateRxData` as written: its result, the value stored, and `errno` afterwards. */
  datatype Validation = Validation(ok: bool, value: u32, errno: int)

  /**
   * As written, `errno` is never cleared before `strtol`, and `strtol` only
   * ever sets it. `errno` is the value it had before the call.
   */
  function ValidateAsWritten(errno: int, text: string): Validation
  {
    var c := StrToL(text);
    var e := if c.rangeError then ERANGE else errno;
    Validation(e == 0 && c.end == |text|, ToU32(c.value), e)
  }

  /** Once `errno` is non-zero, every later input is rejected, and `errno` stays non-zero. */
  lemma AsWrittenStaysRejecting(errno: int, text: string)
    requires errno != 0
    ensures !ValidateAsWritten(errno, text).ok && ValidateAsWritten(errno, text).errno != 0
  {
  }

  /** With `errno` clear beforehand, the written check and `Validate` agree on every text. */
  lemma AsWrittenAgreesWhenClear(text: string)
    ensures ValidateAsWritten(0, text).ok <==> Validate(text).Some?
    ensures ValidateAsWritten(0, text).ok ==> Validate(text) == Some(ValidateAsWritten(0, text).value)
  {
  }

  /**
   * An out-of-range input poisons the check as written: after it, even "5" is
   * rejected, although `Validate` accepts "5".
   */
  lemma AsWrittenOverflowPoisons(big: string)
    requires |big| >= 1 && AllDigits(big) && DigitsValue(big) > LONG_MAX
    ensures ValidateAsWritten(0, big).errno == ERANGE
    ensures !ValidateAsWritten(ValidateAsWritten(0, big).errno, "5").ok
    ensures Validate("5") == Some(5)
  {
    NumeralConverts(big, []);
    assert big + [] == big;
    assert DigitsValue("5") == 5 by {
      assert "5"[..0] == [];
    }
    ValidateNumeral("5");
  }

  /** The value of "21474", digit by digit. */
  lemma FirstFiveDigits()
    ensures DigitsValue("21474") == 21474
  {
    assert DigitsValue("2") == 2 by { assert "2"[..0] == []; }
    assert DigitsValue("21") == 21 by { assert "21"[..1] == "2"; }
    assert DigitsValue("214") == 214 by { assert "214"[..2] == "21"; }
    assert DigitsValue("2147") == 2147 by { assert "2147"[..3] == "214"; }
    assert DigitsValue("21474") == 21474 by { assert "21474"[..4] == "2147"; }
  }

  /** The smallest out-of-range input is "2147483648", one more than LONG_MAX. */
  lemma JustAboveLongMax()
    ensures AllDigits("2147483648") && DigitsValue("2147483648") == LONG_MAX + 1
  {
    FirstFiveDigits();
    assert DigitsValue("214748") == 214748 by { assert "214748"[..5] == "21474"; }
    assert DigitsValue("2147483") == 2147483 by { assert "2147483"[..6] == "214748"; }
    assert DigitsValue("21474836") == 21474836 by { assert "21474836"[..7] == "2147483"; }
    assert DigitsValue("214748364") == 214748364 by { assert "214748364"[..8] == "21474836"; }
    assert DigitsValue("2147483648") == 2147483648 by { assert "2147483648"[..9] == "214748364"; }
  }

  /** "2147483648" followed by "5": the second, valid input is refused as written. */
  lemma AsWrittenRefusesFiveAfterOverflow()
    ensures var first := ValidateAsWritten(0, "2147483648");
      !first.ok && !ValidateAsWritten(first.errno, "5").ok && Validate("5") == Some(5)
  {
    JustAboveLongMax();
    AsWrittenOverflowPoisons("2147483648");
  }

  /** What the feeder decided. */
  datatype Outcome = NothingRead | InvalidData | Restart | Enqueued(value: u32) | QueueFull(value: u32)

  /** The decision, the texts written to the UART, and the request queue afterwards. */
  datatype Dispatched = Dispatched(outcome: Outcome, written: seq<string>, requests: seq<u32>)

  /** How many bytes `uart_read_bytes` hands over when `available` arrived within its timeout. */
  function ReadCount(available: string): (n: nat)
    ensures n <= |available| && n <= RX_BUF_SIZE - 1
    ensures n == |available| || n == RX_BUF_SIZE - 1
  {
    Min(|available|, RX_BUF_SIZE - 1)
  }

  /** The text validated: the bytes read, up to the first NUL among them. */
  function LineRead(available: string): string
  {
    CString(available[..ReadCount(available)])
  }

  /** The whole of `serial_postFoobarData` over the bytes that arrive and the request queue. */
  function Dispatch(available: string, requests: seq<u32>): (d: Dispatched)
    // nothing read: nothing written, nothing queued
    ensures ReadCount(available) == 0 ==> d == Dispatched(NothingRead, [], requests)
    // invalid text: exactly "Invalid data" is written and the queue is untouched
    ensures ReadCount(available) > 0 && Validate(LineRead(available)).None? ==>
      d == Dispatched(InvalidData, [INVALID_DATA], requests)
    // valid text: the echo comes first and fits the 50-byte buffer with its NUL
    ensures ReadCount(available) > 0 && Validate(LineRead(available)).Some? ==>
      d.written != [] && d.written[0] == RECEIVED + LineRead(available) && |d.written[0]| < ECHO_BUFFER_SIZE
    // zero restarts and is never queued
    ensures d.outcome == Restart <==> ReadCount(available) > 0 && Validate(LineRead(available)) == Some(0)
    ensures d.outcome == Restart ==> d.requests == requests && |d.written| == 1
    // a non-zero value is queued as the newest element, or reported as not fitting
    ensures d.outcome.Enqueued? ==>
      d.outcome.value != 0 && Accepts(requests, REQUEST_QUEUE_SIZE) &&
      d.requests == requests + [d.outcome.value] && |d.written| == 1
    ensures d.outcome.QueueFull? ==>
      d.outcome.value != 0 && !Accepts(requests, REQUEST_QUEUE_SIZE) &&
      d.requests == requests && d.written == [RECEIVED + LineRead(available), QUEUE_FULL]
    // a valid non-zero value is queued when there is room and reported full otherwise
    ensures var r := Validate(LineRead(available));
      ReadCount(available) > 0 && r.Some? && r.value != 0 ==>
        d.outcome == (if Accepts(requests, REQUEST_QUEUE_SIZE) then Enqueued(r.value) else QueueFull(r.value))
    // the queue either is unchanged or gains exactly one non-zero value
    ensures d.requests == requests || d.outcome.Enqueued?
    ensures |requests| <= REQUEST_QUEUE_SIZE ==> |d.requests| <= REQUEST_QUEUE_SIZE
  {
    if ReadCount(available) == 0 then Dispatched(NothingRead, [], requests)
    else
      var text := LineRead(available);
      match Validate(text)
      case None => Dispatched(InvalidData, [INVALID_DATA], requests)
      case Some(v) =>
        var echo := RECEIVED + text;
        if v == 0 then Dispatched(Restart, [echo], requests)
        else if Accepts(requests, REQUEST_QUEUE_SIZE) then
          Dispatched(Enqueued(v), [echo], Send(requests, REQUEST_QUEUE_SIZE, v))
        else Dispatched(QueueFull(v), [echo, QUEUE_FULL], requests)
  }

  /** The value 0 never reaches the request queue. */
  lemma {:induction false} ZeroNeverQueued(inputs: seq<string>, requests: seq<u32>)
    requires 0 !in requests
    ensures 0 !in DispatchAll(inputs, requests)
    decreases |inputs|
  {
    if inputs != [] {
      var d := Dispatch(inputs[0], requests);
      assert 0 !in d.requests;
      ZeroNeverQueued(inputs[1..], d.requests);
    }
  }

  /** The request queue after the feeder has run once for each input in turn. */
  function DispatchAll(inputs: seq<string>, requests: seq<u32>): seq<u32>
    decreases |inputs|
  {
    if inputs == [] then requests else DispatchAll(inputs[1..], Dispatch(inputs[0], requests).requests)
  }

  /** "5" is echoed and queued as the newest request. */
  lemma InputFiveQueued(requests: seq<u32>)
    requires |requests| < REQUEST_QUEUE_SIZE
    ensures Dispatch("5", requests) == Dispatched(Enqueued(5), ["Received 5"], requests + [5])
  {
    assert LineRead("5") == "5" by {
      assert "5"[..1] == "5";
      assert "5"[1..] == [];
    }
    assert DigitsValue("5") == 5 by {
      assert "5"[..0] == [];
    }
    ValidateNumeral("5");
    assert Validate("5") == Some(5);
    assert RECEIVED + "5" == "Received 5";
  }

  /** "abc" is refused with "Invalid data" and nothing is queued. */
  lemma InputWordRefused(requests: seq<u32>)
    ensures Dispatch("abc", requests) == Dispatched(InvalidData, [INVALID_DATA], requests)
  {
    assert LineRead("abc") == "abc" by {
      assert "abc"[..3] == "abc";
      assert "abc"[1..] == "bc" && "bc"[1..] == "c" && "c"[1..] == [];
    }
    ValidateRejectsWord("abc");
  }

  /** "0" is echoed and leads to the restart; nothing is queued. */
  lemma InputZeroRestarts(requests: seq<u32>)
    ensures Dispatch("0", requests) == Dispatched(Restart, ["Received 0"], requests)
  {
    assert LineRead("0") == "0" by {
      assert "0"[..1] == "0";
      assert "0"[1..] == [];
    }
    assert DigitsValue("0") == 0 by {
      assert "0"[..0] == [];
    }
    ValidateNumeral("0");
    assert Validate("0") == Some(0);
    assert RECEIVED + "0" == "Received 0";
  }

  /**
   * A lone NUL byte: the C string is empty, `strtol` converts nothing and stops
   * at the terminator, so the check passes with 0 and the restart follows.
   */
  lemma InputNulRestarts(requests: seq<u32>)
    ensures Dispatch("\0", requests) == Dispatched(Restart, [RECEIVED], requests)
  {
    assert LineRead("\0") == "" by {
      assert "\0"[..1] == "\0";
    }
    ValidateEmpty();
    assert RECEIVED + "" == RECEIVED;
  }

  /** A line ending in a newline, "5\n", is refused: strtol stops before the newline. */
  lemma InputWithNewlineRefused(requests: seq<u32>)
    ensures Dispatch("5\n", requests) == Dispatched(InvalidData, [INVALID_DATA], requests)
  {
    assert LineRead("5\n") == "5\n" by {
      assert "5\n"[..2] == "5\n";
      assert "5\n"[1..] == "\n" && "\n"[1..] == [];
    }
    ValidateRejectsTrailing("5", "\n");
    assert "5" + "\n" == "5\n";
  }

  class Serial {
    const rxBuf: array<char>
    const requests: BoundedQueue<u32>
    const out: Channel

    ghost predicate Valid()
      reads this, requests
    {
      rxBuf.Length == RX_BUF_SIZE && requests.capacity == REQUEST_QUEUE_SIZE && requests.Valid()
    }

    /** `requests` is the coordinator's queue, as `foobar_getQueue` returns it. */
    constructor (requests: BoundedQueue<u32>, out: Channel)
      requires requests.capacity == REQUEST_QUEUE_SIZE && requests.Valid()
      ensures Valid() && fresh(rxBuf) && this.requests == requests && this.out == out
    {
      rxBuf := new char[RX_BUF_SIZE];
      this.requests := requests;
      this.out := out;
    }

    /**
     * `uart_read_bytes(UART_NUM_1, rxBuf, RX_BUF_SIZE - 1, ...)`: the driver
     * copies what arrived, at most 31 bytes, to the start of the buffer.
     */
    method ReadBytes(available: string) returns (rxBytes: nat)
      requires Valid()
      modifies rxBuf
      ensures Valid()
      ensures rxBytes == ReadCount(available)
      ensures rxBuf[..rxBytes] == available[..rxBytes]
      ensures forall k :: rxBytes <= k < rxBuf.Length ==> rxBuf[k] == old(rxBuf[k])
    {
      rxBytes := ReadCount(available);
      forall k | 0 <= k < rxBytes {
        rxBuf[k] := available[k];
      }
    }

    /**
     * One call of `serial_postFoobarData`; `available` are the bytes the UART
     * driver delivers within its one-second timeout. The validation reads the
     * static receive buffer, as the written code does (it ignores its `buf`
     * parameter, which is the same buffer at the only call site).
     */
    method PostFoobarData(available: string) returns (outcome: Outcome)
      requires Valid()
      modifies rxBuf, requests, out
      ensures Valid()
      ensures var d := Dispatch(available, old(requests.items));
        outcome == d.outcome && requests.items == d.requests && out.log == old(out.log) + d.written
      // the bytes read sit at the start of the buffer, NUL-terminated right after them
      ensures var n := ReadCount(available);
        n > 0 ==> rxBuf[..n] == available[..n] && rxBuf[n] == '\0' &&
                  forall k :: n < k < rxBuf.Length ==> rxBuf[k] == old(rxBuf[k])
      ensures ReadCount(available) == 0 ==> rxBuf[..] == old(rxBuf[..])
    {
      ghost var queued := requests.items;
      var rxBytes := ReadBytes(available);
      if rxBytes == 0 {
        outcome := NothingRead;
        return;
      }
      rxBuf[rxBytes] := '\0';
      var text := CString(rxBuf[..]);
      assert text == LineRead(available) by {
        CStringOfTerminated(rxBuf[..], rxBytes);
        assert rxBuf[..][..rxBytes] == rxBuf[..rxBytes];
      }
      var value := Validate(text);
      if value.None? {
        out.Write(INVALID_DATA);
        outcome := InvalidData;
        return;
      }
      out.Write(RECEIVED + text);
      if value.value == 0 {
        // esp_restart()
        outcome := Restart;
        return;
      }
      var ok := requests.TrySend(value.value);
      if ok {
        outcome := Enqueued(value.value);
      } else {
        out.Write(QUEUE_FULL);
        outcome := QueueFull(value.value);
      }
    }
  }
}
