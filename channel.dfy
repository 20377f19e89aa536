/** The scope's register channel, MMIO_SCOPE_WRITE and MMIO_SCOPE_READ, as a value:
    the words the device will answer to successive reads, how many more writes the
    channel completes, and the log of command words written so far. */
module Registers {
  import opened Commands

  datatype Channel = Channel(responses: seq<Word>, writesLeft: nat, log: seq<Word>)
  {
    /** fpgaWriteMMIO64 to the command register: appends `cmd` to the log, or fails
        (None) once the channel stops completing writes. */
    function Write(cmd: Word): (r: Option<Channel>)
      ensures r.Some? <==> writesLeft > 0
      ensures r.Some? ==> r.value.responses == responses && r.value.log == log + [cmd]
    {
      if writesLeft == 0 then None else Some(Channel(responses, writesLeft - 1, log + [cmd]))
    }

    /** fpgaReadMMIO64 from the response register: the next response, or a failure
        (None) when the device has nothing left to answer. */
    function Read(): (r: Option<(Word, Channel)>)
      ensures r.Some? <==> |responses| > 0
      ensures r.Some? ==> r.value.0 == responses[0] && r.value.1.responses == responses[1..]
      ensures r.Some? ==> r.value.1.log == log && r.value.1.writesLeft == writesLeft
    {
      if |responses| == 0 then None else Some((responses[0], Channel(responses[1..], writesLeft, log)))
    }
  }
}
