/** The data of the ARP service: addresses, cache entries, user requests, child instances. */
module ArpTypes {
  import opened Bytes

  const ARP_ETHER_PROTO_TYPE := 0x0806
  const IPV4_ETHER_PROTO_TYPE := 0x0800

  const OPCODE_REQUEST := 1
  const OPCODE_REPLY := 2

  // Times are in 100-ns units.
  const DEFAULT_TIMEOUT := 4_000_000_000
  const DEFAULT_RETRY_COUNT := 2
  const DEFAULT_RETRY_INTERVAL := 50_000
  const TIMER_INTERVAL := 5_000_000

  datatype Status =
    | Success | InvalidParameter | NotStarted | AccessDenied | OutOfResources
    | NotFound | NotReady | Unsupported | DeviceError

  /** A stored address: its type and as many octets as its length field says. */
  datatype Address = Address(kind: nat, bytes: seq<byte>)

  /** An address to match or store; no octets stand for a null address pointer. */
  datatype Key = Key(kind: nat, len: nat, bytes: Option<seq<byte>>) {
    ghost predicate Valid() {
      bytes.Some? ==> |bytes.value| == len
    }

    /** What ArpFillAddressInCacheEntry stores for this key. */
    function Stored(): Address {
      Address(kind, if bytes.Some? then bytes.value else Zeros(len))
    }
  }

  /** The first `n` octets at a caller's pointer; memory past the given octets reads as zero. */
  function Read(buf: seq<byte>, n: nat): (r: seq<byte>)
    ensures |r| == n
  {
    if n <= |buf| then buf[..n] else buf + Zeros(n - |buf|)
  }

  function KeyAt(kind: nat, len: nat, buf: Option<seq<byte>>): (k: Key)
    ensures k.Valid()
  {
    Key(kind, len, if buf.Some? then Some(Read(buf.value, len)) else None)
  }

  /** ArpMatchAddress. */
  predicate MatchAddress(k: Key, a: Address) {
    k.kind == a.kind && k.len == |a.bytes| && (k.bytes.Some? ==> k.bytes.value == a.bytes)
  }

  /** CompareMem of a caller's buffer, or of no buffer at all, with a stored address. */
  predicate MatchBuffer(buf: Option<seq<byte>>, a: Address) {
    buf.Some? ==> Read(buf.value, |a.bytes|) == a.bytes
  }

  /** A queued request: the context's identity, the child that issued it, the event to signal, the address it asked for. */
  datatype Request = Request(id: nat, owner: nat, event: nat, target: Address)

  datatype Entry = Entry(proto: Address, hw: Address,
                         retryCount: nat, nextRetry: nat, defaultDecay: nat, decay: nat,
                         requests: seq<Request>)

  datatype Config = Config(swType: nat, swLen: nat, station: seq<byte>,
                           entryTimeOut: nat, retryCount: nat, retryTimeOut: nat)

  datatype Instance = Instance(id: nat, configured: bool, config: Config)

  /** The link below: interface type, hardware address size, broadcast address. */
  datatype Link = Link(ifType: nat, hwSize: nat, broadcast: seq<byte>)

  /** One completion: the request, the address of its entry at that time, the hardware address copied to its buffer. */
  datatype Signal = Signal(request: Request, target: Address, hw: seq<byte>)

  /** One call of ArpSendFrame. */
  datatype Sent = Sent(opcode: nat, sender: nat, target: Address, targetHw: Address)

  /** Everything the service holds, and the logs of completions and frames. */
  datatype State = State(link: Link, children: seq<Instance>,
                         pending: seq<Entry>, denied: seq<Entry>, resolved: seq<Entry>,
                         nextRequest: nat, nextChild: nat,
                         signals: seq<Signal>, sent: seq<Sent>)
}
