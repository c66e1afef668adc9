/** The UART the tasks write their text to, modelled as the list of writes so far. */
module Uart {

  class Channel {
    var log: seq<string>

    constructor ()
      ensures log == []
    {
      log := [];
    }

    /** `uart_write_bytes(UART_NUM_1, text, strlen(text))`. */
    method Write(text: string)
      modifies this
      ensures log == old(log) + [text]
    {
      log := log + [text];
    }
  }
}
