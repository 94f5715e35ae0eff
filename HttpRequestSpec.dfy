/** What each function of the bootstrap client does to the platform, as a
    pure function of the firmware's answers and the state before the call.
    The methods of module HttpRequest are proved to have exactly these
    effects; the lemmas here state what the effects guarantee. */
module HttpRequestSpec {
  import opened Efi
  import opened Platform

  /** The polling budget of wait_until_get_iface_info: 30 one-second waits. */
  const MaxPolls: nat := 30

  /** check_ip4_addr: the four station-address octets, each widened from
      UINT8, add up to something non-zero. */
  function CheckIp4Addr(a: Ip4Address): (r: bool) {
    a[0] as int + a[1] as int + a[2] as int + a[3] as int != 0
  }

  /** An address passes exactly when one of its octets is non-zero, that
      is, exactly when it is not 0.0.0.0: no carry can make the sum of four
      octets vanish. */
  lemma CheckIp4AddrMeaning(a: Ip4Address)
    ensures CheckIp4Addr(a) <==> exists k :: 0 <= k < 4 && a[k] != 0
    ensures !CheckIp4Addr(a) <==> a == [0, 0, 0, 0]
  {
  }

  /** ip4_cfg2_get_data for the interface info: a size probe, then an
      allocation of that size, then the sized query.  The value is the
      output pointer, non-NULL whenever the allocation was made. */
  function Ip4Cfg2GetDataSpec(sc: Scripts, st: PlatformState): (r: Ret<Option<Ptr>>)
    requires WellFormed(st)
    ensures WellFormed(r.state)
    // a non-NULL output is a block allocated by this call, and only it is
    ensures r.value.None? ==> r.state.live == st.live
    ensures r.value.Some? ==> r.value.value >= st.nextPtr && r.state.live == st.live + {r.value.value}
    // EFI_SUCCESS comes with a filled snapshot
    ensures !IsError(r.status) <==> r.status == Success
    ensures r.status == Success ==> r.value.Some? && r.value.value in r.state.memory
    ensures r.state.openProtocols == st.openProtocols && r.state.sleeps == st.sleeps
    ensures r.state.fetched == st.fetched && r.state.nextPtr >= st.nextPtr
    ensures r.state.used.setPolicy == st.used.setPolicy && r.state.used.fetch == st.used.fetch
  {
    var probe := GetDataSizeStep(sc, st);
    if probe.status != BufferTooSmall then Ret(probe.status, None, probe.state)
    else
      var a := AllocatePoolStep(sc, probe.state);
      if IsError(a.status) then Ret(a.status, None, a.state)
      else
        var q := GetDataStep(sc, a.state, a.value.value);
        if IsError(q.status) then Ret(q.status, a.value, q.state)
        else Ret(Success, a.value, q.state)
  }

  /** The loop of wait_until_get_iface_info from iteration `attempt` on, with
      no snapshot held, until the budget of attempts is spent. */
  function PollSpec(sc: Scripts, st: PlatformState, attempt: nat): (r: Ret<Option<Ptr>>)
    requires WellFormed(st) && attempt <= MaxPolls
    ensures WellFormed(r.state)
    ensures r.status == Success <==> r.value.Some?
    ensures !IsError(r.status) <==> r.status == Success
    ensures r.value.Some? ==>
              && r.value.value in r.state.memory && r.value.value >= st.nextPtr
              && CheckIp4Addr(r.state.memory[r.value.value])
    ensures st.live <= r.state.live && OnlyFreshAdded(st, r.state)
    ensures r.state.openProtocols == st.openProtocols && r.state.fetched == st.fetched
    ensures r.state.used.setPolicy == st.used.setPolicy && r.state.used.fetch == st.used.fetch
    // one sleep per attempt, and never more attempts than the budget left
    ensures st.sleeps <= r.state.sleeps <= st.sleeps + (MaxPolls - attempt)
    ensures attempt < MaxPolls ==> r.state.sleeps > st.sleeps
    decreases MaxPolls - attempt, 1
  {
    if attempt == MaxPolls then Ret(NotReady, None, st) else AttemptSpec(sc, st, attempt)
  }

  /** Attempt number `attempt` of that loop: sleep, fetch a snapshot, stop
      on an error or on a set address, otherwise free it and poll on. */
  function AttemptSpec(sc: Scripts, st: PlatformState, attempt: nat): (r: Ret<Option<Ptr>>)
    requires WellFormed(st) && attempt < MaxPolls
    ensures WellFormed(r.state)
    ensures r.status == Success <==> r.value.Some?
    ensures !IsError(r.status) <==> r.status == Success
    ensures r.value.Some? ==>
              && r.value.value in r.state.memory && r.value.value >= st.nextPtr
              && CheckIp4Addr(r.state.memory[r.value.value])
    ensures st.live <= r.state.live && OnlyFreshAdded(st, r.state)
    ensures r.state.openProtocols == st.openProtocols && r.state.fetched == st.fetched
    ensures r.state.used.setPolicy == st.used.setPolicy && r.state.used.fetch == st.used.fetch
    ensures st.sleeps < r.state.sleeps <= st.sleeps + (MaxPolls - attempt)
    decreases MaxPolls - attempt, 0
  {
    var g := Ip4Cfg2GetDataSpec(sc, SleepStep(st));
    if IsError(g.status) then Ret(g.status, None, g.state)
    else if CheckIp4Addr(g.state.memory[g.value.value]) then Ret(Success, g.value, g.state)
    else PollSpec(sc, FreePoolStep(g.state, g.value.value), attempt + 1)
  }

  /** wait_until_get_iface_info: free the snapshot passed in, then poll. */
  function WaitUntilGetIfaceInfoSpec(sc: Scripts, st: PlatformState, p: Option<Ptr>): (r: Ret<Option<Ptr>>)
    requires WellFormed(st) && (p.Some? ==> p.value in st.live)
    ensures WellFormed(r.state)
    ensures r.status == Success <==> r.value.Some?
    ensures !IsError(r.status) <==> r.status == Success
    ensures r.value.Some? ==>
              && r.value.value in r.state.memory && r.value.value >= st.nextPtr
              && CheckIp4Addr(r.state.memory[r.value.value])
    ensures st.live - (if p.Some? then {p.value} else {}) <= r.state.live
    ensures p.Some? ==> p.value !in r.state.live
    ensures OnlyFreshAdded(st, r.state)
    ensures r.state.openProtocols == st.openProtocols && r.state.fetched == st.fetched
    ensures r.state.used.fetch == st.used.fetch
    ensures st.sleeps < r.state.sleeps <= st.sleeps + MaxPolls
  {
    PollSpec(sc, if p.Some? then FreePoolStep(st, p.value) else st, 0)
  }

  /** The part of print_device_path that runs when a to-text handle was
      found: open the to-text protocol on it, convert and print the path,
      free the text, close the protocol. */
  function DeviceTextSpec(sc: Scripts, st: PlatformState, toTextHandle: Handle): (r: Done)
    requires WellFormed(st)
    ensures WellFormed(r.state)
    ensures r.status == sc.open(st.used.open)
    ensures r.state.openProtocols == st.openProtocols
    ensures r.state.live == st.live && r.state.outstanding == st.outstanding && r.state.memory == st.memory
    ensures r.state.nextPtr >= st.nextPtr
    ensures r.state.sleeps == st.sleeps && r.state.fetched == st.fetched
    ensures r.state.used.(open := 0, toText := 0) == st.used.(open := 0, toText := 0)
  {
    var toText := Opening(toTextHandle, DevicePathToText);
    var t := OpenProtocolStep(sc, st, toText);
    if IsError(t.status) then t
    else
      var (text, st1) := ConvertDevicePathToTextStep(sc, t.state);
      var st2 := if text.Some? then FreePoolStep(st1, text.value) else st1;
      Done(t.status, CloseProtocolStep(st2, toText))
  }

  /** The part of print_device_path between opening the NIC's device path
      and closing it: find the to-text protocol, print through its first
      handle, free the handle buffer. */
  function LocateAndPrintSpec(sc: Scripts, st: PlatformState): (r: Done)
    requires WellFormed(st)
    ensures WellFormed(r.state)
    ensures r.state.openProtocols == st.openProtocols
    ensures r.state.live == st.live && r.state.outstanding == st.outstanding && r.state.memory == st.memory
    ensures r.state.nextPtr >= st.nextPtr
    ensures IsError(sc.locate(st.used.locate).status) ==> r.status == sc.locate(st.used.locate).status
    ensures !IsError(sc.locate(st.used.locate).status) && |sc.locate(st.used.locate).handles| == 0 ==>
              r.status == NotFound
    ensures !IsError(sc.locate(st.used.locate).status) && |sc.locate(st.used.locate).handles| > 0 ==>
              r.status == sc.open(st.used.open)
    ensures r.state.sleeps == st.sleeps && r.state.fetched == st.fetched
    ensures r.state.used.(open := 0, toText := 0, locate := 0) == st.used.(open := 0, toText := 0, locate := 0)
  {
    var l := LocateHandleBufferStep(sc, st);
    if IsError(l.status) then Done(l.status, l.state)
    else
      var body := if |l.handles| == 0 then Done(NotFound, l.state) else DeviceTextSpec(sc, l.state, l.handles[0]);
      Done(body.status, if l.buffer.Some? then FreePoolStep(body.state, l.buffer.value) else body.state)
  }

  /** print_device_path for binding `nic`. */
  function PrintDevicePathSpec(sc: Scripts, st: PlatformState, nic: Handle): (r: Done)
    requires WellFormed(st)
    ensures WellFormed(r.state)
    // every open is matched by a close and every buffer is freed, on every path
    ensures r.state.openProtocols == st.openProtocols
    ensures r.state.live == st.live && r.state.outstanding == st.outstanding && r.state.memory == st.memory
    ensures r.state.nextPtr >= st.nextPtr
    // a failed open of the NIC's device path is returned before anything else is done
    ensures IsError(sc.open(st.used.open)) ==>
              r.status == sc.open(st.used.open) && r.state.used.locate == st.used.locate
    // after a successful open, a failed lookup is returned, and no to-text handle means EFI_NOT_FOUND
    ensures !IsError(sc.open(st.used.open)) && IsError(sc.locate(st.used.locate).status) ==>
              r.status == sc.locate(st.used.locate).status
    ensures (&& !IsError(sc.open(st.used.open)) && !IsError(sc.locate(st.used.locate).status)
             && |sc.locate(st.used.locate).handles| == 0) ==> r.status == NotFound
    ensures (&& !IsError(sc.open(st.used.open)) && !IsError(sc.locate(st.used.locate).status)
             && |sc.locate(st.used.locate).handles| > 0) ==> r.status == sc.open(st.used.open + 1)
    ensures r.state.sleeps == st.sleeps && r.state.fetched == st.fetched
    ensures r.state.used.(open := 0, toText := 0, locate := 0) == st.used.(open := 0, toText := 0, locate := 0)
  {
    var nicPath := Opening(nic, DevicePath);
    var o := OpenProtocolStep(sc, st, nicPath);
    if IsError(o.status) then o
    else
      var inner := LocateAndPrintSpec(sc, o.state);
      Done(inner.status, CloseProtocolStep(inner.state, nicPath))
  }

  /** Lines 210-229 of an iteration of send_http_get_request, with the
      snapshot `info` just fetched: keep it if its address is set, otherwise
      switch the binding to DHCP and poll for an address.  The value is the
      snapshot held afterwards. */
  function EnsureAddressSpec(sc: Scripts, st: PlatformState, info: Ptr): (r: Ret<Option<Ptr>>)
    requires WellFormed(st) && info in st.memory
    ensures WellFormed(r.state)
    // an address already set: nothing is asked of the firmware
    ensures CheckIp4Addr(st.memory[info]) ==> r == Ret(Success, Some(info), st)
    // an unset address: exactly one SetData(Policy = Dhcp), and polling only if it succeeded
    ensures !CheckIp4Addr(st.memory[info]) ==> r.state.used.setPolicy == st.used.setPolicy + 1
    ensures !CheckIp4Addr(st.memory[info]) && IsError(sc.setPolicy(st.used.setPolicy)) ==>
              r == Ret(sc.setPolicy(st.used.setPolicy), Some(info), r.state) && r.state.sleeps == st.sleeps
              && r.state.live == st.live
    ensures !CheckIp4Addr(st.memory[info]) && !IsError(sc.setPolicy(st.used.setPolicy)) ==>
              r.state.sleeps > st.sleeps && info !in r.state.live
    // success means a snapshot with an address is held
    ensures !IsError(r.status) ==>
              r.value.Some? && r.value.value in r.state.memory && CheckIp4Addr(r.state.memory[r.value.value])
    ensures r.value.Some? ==> r.value.value in r.state.live && (r.value.value == info || r.value.value >= st.nextPtr)
    ensures st.live - {info} <= r.state.live && OnlyFreshAdded(st, r.state)
    ensures r.state.openProtocols == st.openProtocols && r.state.fetched == st.fetched
    ensures r.state.used.fetch == st.used.fetch
  {
    if CheckIp4Addr(st.memory[info]) then Ret(Success, Some(info), st)
    else
      var s := SetDhcpPolicyStep(sc, st);
      if IsError(s.status) then Ret(s.status, Some(info), s.state)
      else WaitUntilGetIfaceInfoSpec(sc, s.state, Some(info))
  }

  /** Lines 230-245: fetch through binding h and free the response buffer
      after a success.  After a failure the buffer, if any, stays allocated. */
  function FetchResponseSpec(sc: Scripts, st: PlatformState, h: Handle): (r: Done)
    requires WellFormed(st)
    ensures WellFormed(r.state)
    ensures r.status == sc.fetch(st.used.fetch).status
    ensures r.state.fetched == st.fetched + [h]
    ensures !IsError(r.status) ==> r.state.live == st.live
    ensures IsError(r.status) ==>
              r.state.live == st.live + (if sc.fetch(st.used.fetch).buffer then {st.nextPtr} else {})
    ensures OnlyFreshAdded(st, r.state) && r.state.memory == st.memory
    ensures r.state.openProtocols == st.openProtocols
  {
    var f := FetchBufferUriStep(sc, st, h);
    if IsError(f.status) then Done(f.status, f.state)
    else Done(f.status, if f.value.Some? then FreePoolStep(f.state, f.value.value) else f.state)
  }

  /** The part of one iteration of send_http_get_request between opening
      the IP4Config2 protocol and the label break_loop: the status reaching
      break_loop and the interface-info snapshot held there. */
  function ConfigureAndFetchSpec(sc: Scripts, st: PlatformState, h: Handle): (r: Ret<Option<Ptr>>)
    requires WellFormed(st)
    ensures WellFormed(r.state)
    ensures r.value.Some? ==> r.value.value in r.state.live && r.value.value >= st.nextPtr
    ensures st.live <= r.state.live && OnlyFreshAdded(st, r.state)
    ensures r.state.openProtocols == st.openProtocols
    // the binding is fetched through at most once, and only once its
    // address is set; without a fetch, break_loop is reached with an error
    ensures r.state.fetched == st.fetched || r.state.fetched == st.fetched + [h]
    ensures r.state.fetched == st.fetched ==> IsError(r.status)
    ensures r.state.fetched != st.fetched ==>
              && r.value.Some? && r.value.value in r.state.memory && CheckIp4Addr(r.state.memory[r.value.value])
              && r.status == sc.fetch(st.used.fetch).status
  {
    var g := Ip4Cfg2GetDataSpec(sc, st);
    if IsError(g.status) || g.value.None? then g
    else
      var ready := EnsureAddressSpec(sc, g.state, g.value.value);
      if IsError(ready.status) then ready
      else
        var f := FetchResponseSpec(sc, ready.state, h);
        Ret(f.status, ready.value, f.state)
  }

  /** One iteration of the loop of send_http_get_request, for binding h.
      An error status ends the loop (through reclaim or through the break
      after break_loop); any other status lets it go on to the next binding. */
  function BindingSpec(sc: Scripts, st: PlatformState, h: Handle): (r: Done)
    requires WellFormed(st)
    ensures WellFormed(r.state)
    ensures st.live <= r.state.live && r.state.nextPtr >= st.nextPtr
    ensures r.state.openProtocols == st.openProtocols
    // the iteration is an error unless it fetched through h, and after a
    // fetch the fetch's status is the iteration's
    ensures r.state.fetched == st.fetched || r.state.fetched == st.fetched + [h]
    ensures r.state.fetched == st.fetched ==> IsError(r.status)
    ensures r.state.fetched != st.fetched ==> r.status == sc.fetch(st.used.fetch).status
  {
    var d := PrintDevicePathSpec(sc, st, h);
    if IsError(d.status) then d
    else
      var config := Opening(h, Ip4Config2);
      var o := OpenProtocolStep(sc, d.state, config);
      if IsError(o.status) then o
      else
        var b := ConfigureAndFetchSpec(sc, o.state, h);
        var st1 := if b.value.Some? then FreePoolStep(b.state, b.value.value) else b.state;
        Done(b.status, CloseProtocolStep(st1, config))
  }

  /** The loop of send_http_get_request from binding i on; `status` is the
      value efi_status holds when iteration i starts. */
  function BindingsSpec(sc: Scripts, st: PlatformState, handles: seq<Handle>, i: nat, status: Status): (r: Done)
    requires WellFormed(st) && i <= |handles|
    ensures WellFormed(r.state)
    ensures st.live <= r.state.live && r.state.nextPtr >= st.nextPtr
    ensures r.state.openProtocols == st.openProtocols
    decreases |handles| - i, 1
  {
    if i == |handles| then Done(status, st) else NextBindingSpec(sc, st, handles, i)
  }

  /** Iteration i of that loop and the iterations after it, which run only
      if iteration i ended without an error. */
  function NextBindingSpec(sc: Scripts, st: PlatformState, handles: seq<Handle>, i: nat): (r: Done)
    requires WellFormed(st) && i < |handles|
    ensures WellFormed(r.state)
    ensures st.live <= r.state.live && r.state.nextPtr >= st.nextPtr
    ensures r.state.openProtocols == st.openProtocols
    decreases |handles| - i, 0
  {
    var b := BindingSpec(sc, st, handles[i]);
    if IsError(b.status) then b else BindingsSpec(sc, b.state, handles, i + 1, b.status)
  }

  /** send_http_get_request */
  function SendHttpGetRequestSpec(sc: Scripts, st: PlatformState): (r: Done)
    requires WellFormed(st)
    ensures WellFormed(r.state)
    // a failed discovery is returned as it is
    ensures IsError(sc.locate(st.used.locate).status) ==> r.status == sc.locate(st.used.locate).status
    // no binding: EFI_NOT_FOUND, before any binding is tried
    ensures !IsError(sc.locate(st.used.locate).status) && |sc.locate(st.used.locate).handles| == 0 ==>
              r.status == NotFound && r.state.used.open == st.used.open
    // otherwise EFI_SUCCESS, whatever happened to the bindings
    ensures !IsError(sc.locate(st.used.locate).status) && |sc.locate(st.used.locate).handles| > 0 ==>
              r.status == Success
  {
    var l := LocateHandleBufferStep(sc, st);
    if IsError(l.status) then Done(l.status, l.state)
    else if |l.handles| == 0 || l.buffer.None? then Done(NotFound, l.state)
    else
      var loop := BindingsSpec(sc, l.state, l.handles, 0, l.status);
      Done(Success, if l.buffer.Some? then FreePoolStep(loop.state, l.buffer.value) else loop.state)
  }
}
