/** The bootstrap client of shim-src/http-request.c, step by step against the
    firmware.  Each method is proved to change the platform exactly as the
    function of the same name in HttpRequestSpec says; the goto labels of
    the C code are labelled blocks left with `break`. */
module HttpRequest {
  import opened Efi
  import opened Platform
  import opened HttpRequestSpec

  /** print_device_path: open the binding's device path exclusively, print
      it through the first device-path-to-text handle, release everything. */
  method PrintDevicePath(fw: Firmware, nic: Handle) returns (status: Status)
    requires fw.Valid()
    modifies fw
    ensures fw.Valid()
    ensures Done(status, fw.State()) == PrintDevicePathSpec(fw.scripts, old(fw.State()), nic)
  {
    status := fw.OpenProtocol(Opening(nic, DevicePath));
    if IsError(status) {
      return;
    }
    label closeNicProtocol: {
      var toTextHandles: seq<Handle>;
      var buffer: Option<Ptr>;
      status, toTextHandles, buffer := fw.LocateHandleBuffer();
      if IsError(status) {
        break closeNicProtocol;
      }
      label freeHandles: {
        if |toTextHandles| == 0 {
          status := NotFound;
          break freeHandles;
        }
        status := fw.OpenProtocol(Opening(toTextHandles[0], DevicePathToText));
        if IsError(status) {
          break freeHandles;
        }
        var text := fw.ConvertDevicePathToText();
        if text.Some? {
          fw.FreePool(text.value);
        }
        fw.CloseProtocol(Opening(toTextHandles[0], DevicePathToText));
      }
      if buffer.Some? {
        fw.FreePool(buffer.value);
      }
    }
    fw.CloseProtocol(Opening(nic, DevicePath));
  }

  /** ip4_cfg2_get_data for Ip4Config2DataTypeInterfaceInfo.  A non-NULL
      output is the caller's to free, whatever the status. */
  method Ip4Cfg2GetData(fw: Firmware) returns (status: Status, output: Option<Ptr>)
    requires fw.Valid()
    modifies fw
    ensures fw.Valid()
    ensures Ret(status, output, fw.State()) == Ip4Cfg2GetDataSpec(fw.scripts, old(fw.State()))
  {
    output := None;
    status := fw.GetDataSize();
    if status != BufferTooSmall {
      return;
    }
    status, output := fw.AllocatePool();
    if IsError(status) {
      return;
    }
    status := fw.GetData(output.value);
    if IsError(status) {
      return;
    }
    return Success, output;
  }

  /** One pass of the polling loop of wait_until_get_iface_info, attempt
      number `attempt`, entered with no snapshot held: sleep, fetch a
      snapshot, then either stop (on an error, which the caller returns, or
      on a set address, whose snapshot the caller keeps) or free the
      snapshot so that the next attempt can begin. */
  method PollAttempt(fw: Firmware, ghost attempt: nat) returns (status: Status, info: Option<Ptr>, stop: bool)
    requires fw.Valid() && attempt < MaxPolls
    modifies fw
    ensures fw.Valid()
    ensures stop ==> Ret(status, info, fw.State()) == PollSpec(fw.scripts, old(fw.State()), attempt)
    ensures !stop ==> PollSpec(fw.scripts, fw.State(), attempt + 1) == PollSpec(fw.scripts, old(fw.State()), attempt)
  {
    fw.Sleep();
    status, info := Ip4Cfg2GetData(fw);
    if IsError(status) {
      return status, None, true;
    }
    if CheckIp4Addr(fw.memory[info.value]) {
      return status, info, true;
    }
    if info.Some? {
      fw.FreePool(info.value);
    }
    return status, None, false;
  }

  /** wait_until_get_iface_info: `p` is the snapshot the caller holds on
      entry, the second result the one it holds on return. */
  method WaitUntilGetIfaceInfo(fw: Firmware, p: Option<Ptr>) returns (status: Status, q: Option<Ptr>)
    requires fw.Valid() && (p.Some? ==> p.value in fw.live)
    modifies fw
    ensures fw.Valid()
    ensures Ret(status, q, fw.State()) == WaitUntilGetIfaceInfoSpec(fw.scripts, old(fw.State()), p)
  {
    q := p;
    if q.Some? {
      fw.FreePool(q.value);
      q := None;
    }
    ghost var goal := PollSpec(fw.scripts, fw.State(), 0);
    for i := 0 to MaxPolls
      invariant fw.Valid() && q.None?
      invariant PollSpec(fw.scripts, fw.State(), i) == goal
    {
      var info: Option<Ptr>;
      var stop: bool;
      status, info, stop := PollAttempt(fw, i);
      if stop {
        if IsError(status) {
          return;
        }
        q := info;
        break;
      }
    }
    status := if q.Some? then Success else NotReady;
  }

  /** The part of an iteration of send_http_get_request that runs with the
      IP4Config2 protocol of binding h open: fetch the interface info, make
      sure it has an address (switching to DHCP and waiting if not), fetch
      through the binding and free the response.  Returning is reaching the
      label break_loop; `info` is the snapshot held there. */
  method ConfigureAndFetch(fw: Firmware, h: Handle) returns (status: Status, info: Option<Ptr>)
    requires fw.Valid()
    modifies fw
    ensures fw.Valid()
    ensures Ret(status, info, fw.State()) == ConfigureAndFetchSpec(fw.scripts, old(fw.State()), h)
  {
    status, info := Ip4Cfg2GetData(fw);
    if IsError(status) || info.None? {
      return;
    }
    if !CheckIp4Addr(fw.memory[info.value]) {
      status := fw.SetDhcpPolicy();
      if IsError(status) {
        return;
      }
      status, info := WaitUntilGetIfaceInfo(fw, info);
      if IsError(status) {
        return;
      }
    }
    var data: Option<Ptr>;
    status, data := fw.FetchBufferUri(h);
    if IsError(status) {
      return;
    }
    if data.Some? {
      fw.FreePool(data.value);
    }
  }

  /** One iteration of the loop of send_http_get_request, for binding h:
      describe it and open its IP4Config2 protocol (a failure of either
      leaves at once, the goto reclaim), then configure and fetch, and at
      break_loop free the snapshot and close the protocol. */
  method ServeBinding(fw: Firmware, h: Handle) returns (status: Status)
    requires fw.Valid()
    modifies fw
    ensures fw.Valid()
    ensures Done(status, fw.State()) == BindingSpec(fw.scripts, old(fw.State()), h)
  {
    status := PrintDevicePath(fw, h);
    if IsError(status) {
      return;
    }
    status := fw.OpenProtocol(Opening(h, Ip4Config2));
    if IsError(status) {
      return;
    }
    var info: Option<Ptr>;
    status, info := ConfigureAndFetch(fw, h);
    // break_loop:
    if info.Some? {
      fw.FreePool(info.value);
    }
    fw.CloseProtocol(Opening(h, Ip4Config2));
  }

  /** send_http_get_request: discover the HTTP-capable bindings, serve them
      in order until one fails, free the handle buffer (reclaim). */
  method SendHttpGetRequest(fw: Firmware) returns (status: Status)
    requires fw.Valid()
    modifies fw
    ensures fw.Valid()
    ensures Done(status, fw.State()) == SendHttpGetRequestSpec(fw.scripts, old(fw.State()))
  {
    var handles: seq<Handle>;
    var bindingBuffer: Option<Ptr>;
    status, handles, bindingBuffer := fw.LocateHandleBuffer();
    if IsError(status) {
      return;
    }
    if |handles| == 0 || bindingBuffer.None? {
      return NotFound;
    }
    ghost var goal := BindingsSpec(fw.scripts, fw.State(), handles, 0, status);
    var i := 0;
    while i < |handles|
      invariant fw.Valid() && i <= |handles| && bindingBuffer.value in fw.live
      invariant BindingsSpec(fw.scripts, fw.State(), handles, i, status) == goal
    {
      status := ServeBinding(fw, handles[i]);
      if IsError(status) {
        break;
      }
      i := i + 1;
    }
    // reclaim:
    if bindingBuffer.Some? {
      fw.FreePool(bindingBuffer.value);
    }
    return Success;
  }
}
