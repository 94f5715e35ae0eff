/** The firmware the bootstrap client runs on, as an abstract environment.

    What each boot-service or protocol call answers is read from a script:
    one total function per kind of call, indexed by how many calls of that
    kind came before.  The state the client can change is what it holds:
    the pool blocks it has allocated and not freed, the protocol interfaces
    it has opened and not closed, the contents of interface-info snapshots,
    the number of one-second sleeps, and the handles it has asked the HTTP
    transfer engine to fetch through. */
module Platform {
  import opened Efi

  /** LocateHandleBuffer: the status, the handles found, and whether the
      firmware hands back a (non-NULL) buffer even when it found no handle. */
  datatype LocateReply = LocateReply(status: Status, handles: seq<Handle>, bufferWhenEmpty: bool)

  /** A sized GetData(Ip4Config2DataTypeInterfaceInfo): the status and the
      station address written into the caller's buffer. */
  datatype InfoReply = InfoReply(status: Status, address: Ip4Address)

  /** httpboot_fetch_buffer_uri: the status and whether it returned a
      response buffer (which the caller then owns, whatever the status). */
  datatype FetchReply = FetchReply(status: Status, buffer: bool)

  /** The answers of the firmware, call by call.  A GetData size probe
      passes a NULL buffer of size 0, which can never receive the interface
      info, so its answer is always an error status. */
  datatype Scripts = Scripts(
    locate: nat -> LocateReply,
    open: nat -> Status,
    toText: nat -> bool,
    probe: nat -> ErrorStatus,
    alloc: nat -> Status,
    getInfo: nat -> InfoReply,
    setPolicy: nat -> Status,
    fetch: nat -> FetchReply)

  /** How many answers of each script have been consumed. */
  datatype Cursors = Cursors(
    locate: nat, open: nat, toText: nat, probe: nat,
    alloc: nat, getInfo: nat, setPolicy: nat, fetch: nat)

  datatype PlatformState = PlatformState(
    used: Cursors,
    live: set<Ptr>,                       // pool blocks allocated and not yet freed
    outstanding: int,                     // how many blocks `live` holds: allocations minus frees
    nextPtr: nat,                         // no block at or above this address was ever handed out
    memory: map<Ptr, Ip4Address>,         // station address held by each interface-info snapshot
    openProtocols: multiset<Opening>,     // protocol opens not yet matched by a close
    sleeps: nat,                          // one-second msleep calls so far
    fetched: seq<Handle>)                 // bindings handed to the transfer engine, in order

  ghost predicate WellFormed(st: PlatformState) {
    && (forall p :: p in st.live ==> p < st.nextPtr)
    && st.memory.Keys <= st.live
  }

  /** Every block live after but not before was allocated in between. */
  ghost predicate OnlyFreshAdded(before: PlatformState, after: PlatformState) {
    && after.nextPtr >= before.nextPtr
    && forall q :: q in after.live && q !in before.live ==> q >= before.nextPtr
  }

  /** A call that returns a status and a value and moves the platform on. */
  datatype Ret<T> = Ret(status: Status, value: T, state: PlatformState)

  /** A call that returns only a status. */
  datatype Done = Done(status: Status, state: PlatformState)

  /** LocateHandleBuffer: a status, a handle count with the handles, and a buffer. */
  datatype Located = Located(status: Status, handles: seq<Handle>, buffer: Option<Ptr>, state: PlatformState)

  function Initial(): (st: PlatformState)
    ensures WellFormed(st) && st.live == {} && st.outstanding == 0 && st.openProtocols == multiset{}
  {
    PlatformState(Cursors(0, 0, 0, 0, 0, 0, 0, 0), {}, 0, 0, map[], multiset{}, 0, [])
  }

  /** A fresh pool block, at the lowest address never handed out. */
  function Allocate(st: PlatformState): (r: PlatformState)
    requires WellFormed(st)
    ensures WellFormed(r)
    ensures st.nextPtr !in st.live && r.live == st.live + {st.nextPtr}
  {
    st.(live := st.live + {st.nextPtr}, outstanding := st.outstanding + 1, nextPtr := st.nextPtr + 1)
  }

  /** BS->AllocatePool */
  function AllocatePoolStep(sc: Scripts, st: PlatformState): (r: Ret<Option<Ptr>>)
    requires WellFormed(st)
    ensures WellFormed(r.state)
  {
    var s := sc.alloc(st.used.alloc);
    var st1 := st.(used := st.used.(alloc := st.used.alloc + 1));
    if IsError(s) then Ret(s, None, st1) else Ret(s, Some(st1.nextPtr), Allocate(st1))
  }

  /** BS->FreePool: the block leaves the live set (and its contents go with it). */
  function FreePoolStep(st: PlatformState, p: Ptr): (r: PlatformState)
    requires WellFormed(st) && p in st.live
    ensures WellFormed(r)
  {
    st.(live := st.live - {p}, outstanding := st.outstanding - 1, memory := st.memory - {p})
  }

  /** The counter moves with the size of the live set: an allocation adds
      one block that was not live, a free removes one that was. */
  lemma OutstandingCountsLive(st: PlatformState, p: Ptr)
    requires WellFormed(st) && p in st.live
    ensures |Allocate(st).live| - |st.live| == Allocate(st).outstanding - st.outstanding == 1
    ensures |FreePoolStep(st, p).live| - |st.live| == FreePoolStep(st, p).outstanding - st.outstanding == -1
  {
  }

  /** BS->OpenProtocol: a successful open is recorded as outstanding. */
  function OpenProtocolStep(sc: Scripts, st: PlatformState, o: Opening): (r: Done)
    requires WellFormed(st)
    ensures WellFormed(r.state)
  {
    var s := sc.open(st.used.open);
    var st1 := st.(used := st.used.(open := st.used.open + 1));
    Done(s, if IsError(s) then st1 else st1.(openProtocols := st1.openProtocols + multiset{o}))
  }

  /** BS->CloseProtocol: matches one outstanding open, if there is one.  The
      client ignores the status it returns. */
  function CloseProtocolStep(st: PlatformState, o: Opening): (r: PlatformState)
    requires WellFormed(st)
    ensures WellFormed(r)
  {
    st.(openProtocols := st.openProtocols - multiset{o})
  }

  /** BS->LocateHandleBuffer: on success the handles are returned in a pool
      buffer the caller must free. */
  function LocateHandleBufferStep(sc: Scripts, st: PlatformState): (r: Located)
    requires WellFormed(st)
    ensures WellFormed(r.state)
  {
    var reply := sc.locate(st.used.locate);
    var st1 := st.(used := st.used.(locate := st.used.locate + 1));
    if IsError(reply.status) then Located(reply.status, [], None, st1)
    else if |reply.handles| == 0 && !reply.bufferWhenEmpty then Located(reply.status, [], None, st1)
    else Located(reply.status, reply.handles, Some(st1.nextPtr), Allocate(st1))
  }

  /** ConvertDevicePathToText: a pool-allocated string, or NULL. */
  function ConvertDevicePathToTextStep(sc: Scripts, st: PlatformState): (r: (Option<Ptr>, PlatformState))
    requires WellFormed(st)
    ensures WellFormed(r.1)
  {
    var st1 := st.(used := st.used.(toText := st.used.toText + 1));
    if sc.toText(st.used.toText) then (Some(st1.nextPtr), Allocate(st1)) else (None, st1)
  }

  /** GetData(InterfaceInfo) with a zero size and a NULL buffer. */
  function GetDataSizeStep(sc: Scripts, st: PlatformState): (r: Done)
    requires WellFormed(st)
    ensures WellFormed(r.state) && IsError(r.status)
  {
    Done(sc.probe(st.used.probe), st.(used := st.used.(probe := st.used.probe + 1)))
  }

  /** GetData(InterfaceInfo) into the block at p; on success the block holds
      the interface info. */
  function GetDataStep(sc: Scripts, st: PlatformState, p: Ptr): (r: Done)
    requires WellFormed(st) && p in st.live
    ensures WellFormed(r.state)
  {
    var reply := sc.getInfo(st.used.getInfo);
    var st1 := st.(used := st.used.(getInfo := st.used.getInfo + 1));
    Done(reply.status, if IsError(reply.status) then st1 else st1.(memory := st1.memory[p := reply.address]))
  }

  /** SetData(Ip4Config2DataTypePolicy, Ip4Config2PolicyDhcp) */
  function SetDhcpPolicyStep(sc: Scripts, st: PlatformState): (r: Done)
    requires WellFormed(st)
    ensures WellFormed(r.state)
  {
    Done(sc.setPolicy(st.used.setPolicy), st.(used := st.used.(setPolicy := st.used.setPolicy + 1)))
  }

  /** msleep(1000000): time passes, nothing else changes. */
  function SleepStep(st: PlatformState): (r: PlatformState)
    requires WellFormed(st)
    ensures WellFormed(r)
  {
    st.(sleeps := st.sleeps + 1)
  }

  /** httpboot_fetch_buffer_uri through binding h: a status and, possibly,
      a response buffer now owned by the caller. */
  function FetchBufferUriStep(sc: Scripts, st: PlatformState, h: Handle): (r: Ret<Option<Ptr>>)
    requires WellFormed(st)
    ensures WellFormed(r.state)
  {
    var reply := sc.fetch(st.used.fetch);
    var st1 := st.(used := st.used.(fetch := st.used.fetch + 1), fetched := st.fetched + [h]);
    if reply.buffer then Ret(reply.status, Some(st1.nextPtr), Allocate(st1)) else Ret(reply.status, None, st1)
  }

  /** The boot services and the IP4Config2 protocol, as the client sees them.
      Each method is one firmware call; its effect is the step function of
      the same name applied to the state before the call. */
  class Firmware {
    const scripts: Scripts
    var used: Cursors
    var live: set<Ptr>
    var outstanding: int
    var nextPtr: nat
    var memory: map<Ptr, Ip4Address>
    var openProtocols: multiset<Opening>
    var sleeps: nat
    var fetched: seq<Handle>

    function State(): PlatformState
      reads this
    {
      PlatformState(used, live, outstanding, nextPtr, memory, openProtocols, sleeps, fetched)
    }

    ghost predicate Valid()
      reads this
    {
      WellFormed(State())
    }

    constructor (sc: Scripts)
      ensures Valid() && scripts == sc && State() == Initial()
    {
      scripts := sc;
      used := Cursors(0, 0, 0, 0, 0, 0, 0, 0);
      live, outstanding, nextPtr, memory := {}, 0, 0, map[];
      openProtocols, sleeps, fetched := multiset{}, 0, [];
    }

    method AllocatePool() returns (status: Status, p: Option<Ptr>)
      requires Valid()
      modifies this
      ensures Valid()
      ensures Ret(status, p, State()) == AllocatePoolStep(scripts, old(State()))
    {
      status := scripts.alloc(used.alloc);
      used := used.(alloc := used.alloc + 1);
      if IsError(status) {
        p := None;
      } else {
        p := Some(nextPtr);
        live, outstanding, nextPtr := live + {nextPtr}, outstanding + 1, nextPtr + 1;
      }
    }

    method FreePool(p: Ptr)
      requires Valid() && p in live
      modifies this
      ensures Valid()
      ensures State() == FreePoolStep(old(State()), p)
    {
      live, outstanding, memory := live - {p}, outstanding - 1, memory - {p};
    }

    method OpenProtocol(o: Opening) returns (status: Status)
      requires Valid()
      modifies this
      ensures Valid()
      ensures Done(status, State()) == OpenProtocolStep(scripts, old(State()), o)
    {
      status := scripts.open(used.open);
      used := used.(open := used.open + 1);
      if !IsError(status) {
        openProtocols := openProtocols + multiset{o};
      }
    }

    method CloseProtocol(o: Opening)
      requires Valid()
      modifies this
      ensures Valid()
      ensures State() == CloseProtocolStep(old(State()), o)
    {
      openProtocols := openProtocols - multiset{o};
    }

    method LocateHandleBuffer() returns (status: Status, handles: seq<Handle>, buffer: Option<Ptr>)
      requires Valid()
      modifies this
      ensures Valid()
      ensures Located(status, handles, buffer, State()) == LocateHandleBufferStep(scripts, old(State()))
    {
      var reply := scripts.locate(used.locate);
      used := used.(locate := used.locate + 1);
      status, handles, buffer := reply.status, [], None;
      if !IsError(reply.status) && (|reply.handles| > 0 || reply.bufferWhenEmpty) {
        handles, buffer := reply.handles, Some(nextPtr);
        live, outstanding, nextPtr := live + {nextPtr}, outstanding + 1, nextPtr + 1;
      }
    }

    method ConvertDevicePathToText() returns (text: Option<Ptr>)
      requires Valid()
      modifies this
      ensures Valid()
      ensures (text, State()) == ConvertDevicePathToTextStep(scripts, old(State()))
    {
      var nonNull := scripts.toText(used.toText);
      used := used.(toText := used.toText + 1);
      text := None;
      if nonNull {
        text := Some(nextPtr);
        live, outstanding, nextPtr := live + {nextPtr}, outstanding + 1, nextPtr + 1;
      }
    }

    method GetDataSize() returns (status: Status)
      requires Valid()
      modifies this
      ensures Valid()
      ensures Done(status, State()) == GetDataSizeStep(scripts, old(State()))
    {
      status := scripts.probe(used.probe);
      used := used.(probe := used.probe + 1);
    }

    method GetData(p: Ptr) returns (status: Status)
      requires Valid() && p in live
      modifies this
      ensures Valid()
      ensures Done(status, State()) == GetDataStep(scripts, old(State()), p)
    {
      var reply := scripts.getInfo(used.getInfo);
      used := used.(getInfo := used.getInfo + 1);
      status := reply.status;
      if !IsError(status) {
        memory := memory[p := reply.address];
      }
    }

    method SetDhcpPolicy() returns (status: Status)
      requires Valid()
      modifies this
      ensures Valid()
      ensures Done(status, State()) == SetDhcpPolicyStep(scripts, old(State()))
    {
      status := scripts.setPolicy(used.setPolicy);
      used := used.(setPolicy := used.setPolicy + 1);
    }

    method Sleep()
      requires Valid()
      modifies this
      ensures Valid()
      ensures State() == SleepStep(old(State()))
    {
      sleeps := sleeps + 1;
    }

    method FetchBufferUri(h: Handle) returns (status: Status, data: Option<Ptr>)
      requires Valid()
      modifies this
      ensures Valid()
      ensures Ret(status, data, State()) == FetchBufferUriStep(scripts, old(State()), h)
    {
      var reply := scripts.fetch(used.fetch);
      used, fetched := used.(fetch := used.fetch + 1), fetched + [h];
      status, data := reply.status, None;
      if reply.buffer {
        data := Some(nextPtr);
        live, outstanding, nextPtr := live + {nextPtr}, outstanding + 1, nextPtr + 1;
      }
    }
  }
}
