/** The captured memory image as the plugin sees it: a read-only object that
    answers field reads through a typed struct accessor. Offsets, layers,
    symbol tables and string decoding stay behind the accessor; every read
    either yields a value or fails (unmapped page, bad offset, bad type). */
module MemoryImage {

  /** The outcome of one field read. Usable with `:-`. */
  datatype Read<+T> = Ok(value: T) | Fail {
    predicate IsFailure() {
      Fail?
    }

    function PropagateFailure<U>(): Read<U>
      requires Fail?
    {
      Fail
    }

    function Extract(): T
      requires Ok?
    {
      value
    }
  }

  /** An unsigned 8-bit kernel field (UCHAR, BOOLEAN). */
  type Byte = bv8

  /** Opaque references into the image, one kind per kernel structure. */
  datatype Process = Process(address: nat)     // _EPROCESS
  datatype Thread = Thread(address: nat)       // _ETHREAD
  datatype ApcState = ApcState(address: nat)   // _KAPC_STATE embedded in _KTHREAD
  datatype ListHead = ListHead(address: nat)   // one _LIST_ENTRY of ApcListHead
  datatype Kapc = Kapc(address: nat)           // _KAPC

  /** The accessor. A list walk (`to_list`) is a collaborator that yields a
      finite sequence of entries in link order; every other member is one
      field read that may fail. */
  datatype Image = Image(
    // proc.ThreadListHead.to_list(_ETHREAD, "ThreadListEntry")
    threadList: Process -> seq<Thread>,
    // proc.ImageFileName, decoded as a string
    imageFileName: Process -> Read<string>,
    // thread.Tcb.ApcState
    tcbApcState: Thread -> Read<ApcState>,
    // thread.Cid.UniqueProcess and thread.Cid.UniqueThread
    uniqueProcess: Thread -> Read<int>,
    uniqueThread: Thread -> Read<int>,
    // apc_state.ApcListHead, the array of list heads in index order
    apcListHead: ApcState -> Read<seq<ListHead>>,
    // apc_state.InProgressFlags, KernelApcPending, UserApcPending
    inProgressFlags: ApcState -> Read<Byte>,
    kernelApcPending: ApcState -> Read<Byte>,
    userApcPending: ApcState -> Read<Byte>,
    // apc_list.to_list(_KAPC, "ApcListEntry")
    apcList: ListHead -> seq<Kapc>,
    // apc.KernelRoutine.vol.offset and apc.NormalRoutine.vol.offset:
    // the location of each field, as the accessor reports it
    kernelRoutine: Kapc -> Read<nat>,
    normalRoutine: Kapc -> Read<nat>,
    // apc.ApcMode and apc.Inserted
    apcMode: Kapc -> Read<int>,
    inserted: Kapc -> Read<Byte>)
}
