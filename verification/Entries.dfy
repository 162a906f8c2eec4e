/** The records that travel through the server: `entry.h` and `transaction.h`.
    Sizes and speeds, doubles in the source, are counted in millionths. */
module Entries {

  datatype Status = WAITING | STARTING | STARTED | PAUSED | CANCELLED | COMPLETED

  datatype Entry = Entry(name: string, url: string, status: Status,
                         size: int, remaining: int, complete: int, speed: int,
                         start: int, measured: int)

  predicate Active(status: Status) {
    status.STARTING? || status.STARTED?
  }

  function NewEntry(name: string, url: string): Entry {
    Entry(name, url, WAITING, 0, 0, 0, 0, 0, 0)
  }

  /** `NONE` stands for every command code the controller does not know. */
  datatype Command = NONE | DOWNLOAD | STATUS | PAUSE | CANCEL | RESTART

  datatype Request = Request(command: Command, name: string, url: string)

  datatype ReplyStatus = SUCCESS | PROCESSING | FAILURE

  /** The payload is either a text, which the model leaves out, or the bytes of an entry. */
  datatype Payload = Text | Snapshot(entry: Entry)

  datatype Reply = Reply(command: Command, status: ReplyStatus, name: string, payload: Payload)

  /** `set_transaction` keeps the first 253 characters of a name. */
  function Clipped(name: string): string {
    if |name| <= 253 then name else name[..253]
  }

  function TextReply(request: Request, status: ReplyStatus): Reply {
    Reply(request.command, status, Clipped(request.name), Text)
  }

  function SnapshotReply(entry: Entry): Reply {
    Reply(STATUS, PROCESSING, Clipped(entry.name), Snapshot(entry))
  }
}
