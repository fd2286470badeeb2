/** A checkpoint file of the disk store, as its header and directory entry describe it. */
module KvEntry {
  import Bytes
  import opened Sha1

  datatype Reason =
    | Unknown | Cold | Continued | Evict | Shutdown | AgentSystem | AgentSession
    | BankEvict | BankShutdown | BankCheckpoint

  const BANK_REPLAY_V1: U8 := 0x10

  /** `stored` is what follows the header when the file opens and its header still says
      `textBytes`, and nothing otherwise. */
  datatype Entry = Entry(sha: seq<U8>, quantBits: Bytes.Byte, model: Bytes.Byte, reason: Reason,
                         tokens: Bytes.U32, ctx: Bytes.U32,
                         ext: U8, hits: Bytes.U32, created: nat, lastUsed: nat, textBytes: nat, fileSize: nat,
                         readable: bool, stored: seq<U8>)

  predicate BankReplay(e: Entry) {
    e.reason in {BankEvict, BankShutdown, BankCheckpoint} && e.ext & BANK_REPLAY_V1 != 0
  }

  /** Entries that a lookup may restore without being asked for them by name. */
  predicate AutomaticReplay(e: Entry) {
    if e.reason in {Cold, Continued, Evict, Shutdown} then e.ext & BANK_REPLAY_V1 == 0 else BankReplay(e)
  }
}
