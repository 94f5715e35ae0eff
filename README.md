# A verified model of shim's HTTP bootstrap client

`shim-src/http-request.c` is a small UEFI application built inside shim. It
finds every HTTP service binding the firmware offers. For each binding, in
order, it does five things:

- prints the binding's device path;
- opens its IP4Config2 protocol;
- reads the interface info, and if the station address is 0.0.0.0 switches
  the interface to DHCP and polls for an address (thirty times, one second
  apart);
- fetches a URI through the binding and frees the response;
- frees the interface info and closes the protocol.

It stops at the first binding that fails.

This project models that client in Dafny against an abstract firmware and
proves what the code does with pool memory and protocol opens on every path.

## Structure

- `Efi.dfy`: the interface vocabulary. It covers EFI status codes and
  `EFI_ERROR`, octets, IPv4 addresses, handles, pool pointers (`None` is
  NULL) and protocol openings.
- `Platform.dfy`: the firmware.
  - The firmware's answers are scripts. There is one total function
    `nat -> reply` per kind of call, and cursors say how many calls of each
    kind have been made.
  - `PlatformState` records what the client can change: the live pool
    blocks and their count, the contents of filled blocks, the open
    protocols (a multiset), the waits made and the bindings fetched
    through.
  - Each boot service is a pure step function, and the `Firmware` class
    performs the same step in place.
- `HttpRequestSpec.dfy`: the reference semantics. Each C function, and each
  labelled stretch of one, is a function of the scripts and the state. Its
  contract states the frame and the status it returns. `check_ip4_addr` is
  there too, with its meaning.
- `HttpRequest.dfy`: the C functions as imperative methods on a `Firmware`.
  - The same early returns, `goto` targets (labelled blocks), loop and
    `break` as the source.
  - Each method is proved to change the firmware exactly as its reference
    function says.
- `HttpRequestProperties.dfy`: what the code guarantees, proved of the
  reference functions. This covers memory and protocol accounting, the
  polling bound, what happens when an address is found and when the
  attempts run out, the order of the bindings, and the statuses returned.

## Behaviour kept as written

The model follows the code where it departs from the comments or from a
leak-free design. The lemmas below state each departure:

- **Unfilled snapshot kept on a failed GetData.** When the sized `GetData`
  of a polling attempt fails, `ip4_cfg2_get_data` hands back the allocated
  but unfilled snapshot. `wait_until_get_iface_info` returns the error
  without freeing it and without handing it to its caller, so it stays
  allocated (`WaitLeaksFailedSnapshot`).
- **Response buffer kept on a failed fetch.** A response buffer delivered
  with a failed fetch is not freed (`FetchResponseSpec`,
  `ConfigureAndFetchAccounting`).
- **Empty handle buffer kept.** A handle buffer returned with zero bindings
  is not freed before `EFI_NOT_FOUND` (`SendAccounting`).
- **Always `EFI_SUCCESS` after the loop.** `send_http_get_request` returns
  `EFI_SUCCESS` once it has entered its loop, whatever happened to the
  bindings (`SendHttpGetRequestSpec`).

## Model

| member | source | states |
|---|---|---|
| HttpRequestSpec.CheckIp4AddrMeaning | shim-src/http-request.c:102-110 | The address check holds exactly when some octet of the station address is non-zero. It fails exactly for 0.0.0.0, because the sum is taken in a wide integer (at most 1020) and cannot wrap. |
| HttpRequestSpec.Ip4Cfg2GetDataSpec | shim-src/http-request.c:76-100 | A non-NULL output is one block freshly allocated by the call, and no other block is allocated. EFI_SUCCESS comes with a filled snapshot. Protocols, waits and fetches are untouched. |
| HttpRequestSpec.PollSpec | shim-src/http-request.c:133-153 | From attempt `attempt` on: a snapshot is returned only with EFI_SUCCESS, and its address is set. Every block live before stays live, and every block left live is old or freshly allocated. It waits at least once when an attempt remains, and never more than the attempts left. |
| HttpRequestSpec.AttemptSpec | shim-src/http-request.c:135-152 | One iteration and those after it: the same guarantees, with at least one wait. |
| HttpRequestSpec.WaitUntilGetIfaceInfoSpec | shim-src/http-request.c:123-159 | The snapshot passed in is freed. The result is EFI_SUCCESS exactly when a snapshot with a set address is handed back, and every non-error status is EFI_SUCCESS. It makes between one and thirty waits. Protocols and fetches are untouched. |
| HttpRequestSpec.DeviceTextSpec | shim-src/http-request.c:41-62 | Opening the to-text protocol decides the status. The protocol is closed and the text freed whenever it was opened. The live blocks, their count and their contents end as they began. |
| HttpRequestSpec.LocateAndPrintSpec | shim-src/http-request.c:27-67 | A failed lookup returns its status, and zero handles give EFI_NOT_FOUND. Otherwise the to-text open's status is returned. The handle buffer is freed and every open is closed on every path. |
| HttpRequestSpec.PrintDevicePathSpec | shim-src/http-request.c:13-73 | On every path: every protocol opened is closed, and the live blocks, their count and their contents are unchanged. A failed open of the device path returns at once, before any lookup. A failed lookup returns its status, no to-text handle gives EFI_NOT_FOUND, and otherwise the status of the second open is returned. |
| HttpRequestSpec.EnsureAddressSpec | shim-src/http-request.c:210-229 | A set address returns the snapshot without asking the firmware anything. An unset one makes exactly one SetData(DHCP) and polls only if that succeeded; a failed SetData keeps the snapshot and waits for nothing. A success always holds a snapshot with a set address. |
| HttpRequestSpec.FetchResponseSpec | shim-src/http-request.c:230-245 | It fetches once through the binding and returns the fetch's status. After a success nothing stays allocated; after a failure, a delivered response buffer stays allocated. |
| HttpRequestSpec.ConfigureAndFetchSpec | shim-src/http-request.c:198-245 | The snapshot held at break_loop is live and was allocated during this stretch, and every block live before stays live. The binding is fetched through at most once. Without a fetch, break_loop is reached with an error. A fetch happens only with a held snapshot whose address is set, and the fetch's status is the one that reaches break_loop. |
| HttpRequestSpec.BindingSpec | shim-src/http-request.c:181-256 | An iteration closes every protocol it opens, and every block live before it stays live. It fetches through its binding at most once. Without a fetch it ends with an error, which ends the loop. After a fetch it ends with the fetch's status. |
| HttpRequestSpec.BindingsSpec | shim-src/http-request.c:181-256 | The loop from binding `i` on leaves the open protocols as it found them and frees nothing allocated before it. |
| HttpRequestSpec.NextBindingSpec | shim-src/http-request.c:181-256 | The same frame for iteration `i` together with the iterations after it. |
| HttpRequestSpec.SendHttpGetRequestSpec | shim-src/http-request.c:161-264 | A failed discovery returns its status. No binding gives EFI_NOT_FOUND before any protocol is opened. Otherwise the result is EFI_SUCCESS, whatever the bindings did. |
| HttpRequest.PrintDevicePath | shim-src/http-request.c:13-73 | The method, with its two goto labels, changes the firmware exactly as PrintDevicePathSpec says and returns its status. |
| HttpRequest.Ip4Cfg2GetData | shim-src/http-request.c:76-100 | The method returns the status, the output pointer and the new firmware state of Ip4Cfg2GetDataSpec. |
| HttpRequest.PollAttempt | shim-src/http-request.c:135-152 | One pass of the polling loop either stops with the loop's outcome or frees its snapshot and leaves a state from which the remaining attempts yield that same outcome. |
| HttpRequest.WaitUntilGetIfaceInfo | shim-src/http-request.c:123-159 | The method, with its thirty-pass loop and break, ends exactly as WaitUntilGetIfaceInfoSpec says. |
| HttpRequest.ConfigureAndFetch | shim-src/http-request.c:198-245 | The stretch up to break_loop ends exactly as ConfigureAndFetchSpec says, holding the snapshot it returns. |
| HttpRequest.ServeBinding | shim-src/http-request.c:181-256 | One iteration, including break_loop, ends exactly as BindingSpec says. |
| HttpRequest.SendHttpGetRequest | shim-src/http-request.c:161-264 | The discovery, the loop with its break, and reclaim end exactly as SendHttpGetRequestSpec says. |
| HttpRequestProperties.GetDataAllocatesOnlyAfterProbe | shim-src/http-request.c:76-100 | Memory is requested only after the size probe answered EFI_BUFFER_TOO_SMALL; any other probe status is returned with nothing allocated. A failed allocation is returned as it is. EFI_SUCCESS is reported exactly when the sized GetData succeeded, with the snapshot holding the address it returned. A snapshot returned with an error is allocated but unfilled. |
| HttpRequestProperties.GetDataSucceeds | shim-src/http-request.c:81-99 | With a too-small probe and a successful allocation and query, the result is EFI_SUCCESS. The snapshot is the next block, filled with the reported info, and each of the three calls is made once. |
| HttpRequestProperties.GetDataAccounting | shim-src/http-request.c:88-98 | The call leaves one more block allocated exactly when it returns a snapshot. A snapshot returned with an error comes from a failed sized GetData whose status is returned. |
| HttpRequestProperties.GetDataLeftover | shim-src/http-request.c:82-99 | A failed call keeps a block exactly when the size probe answered EFI_BUFFER_TOO_SMALL, the allocation succeeded and the sized GetData failed. A failed probe or allocation keeps nothing, and a successful call did not end in a failed sized GetData. |
| HttpRequestProperties.AttemptStops | shim-src/http-request.c:144-148 | An attempt that gets through and finds the address set ends the loop with EFI_SUCCESS, holding its own snapshot after one wait. |
| HttpRequestProperties.AttemptSkips | shim-src/http-request.c:149-152 | An attempt that gets through with an unset address frees its snapshot. The loop's outcome is then that of the next attempt, from a state with the same block count and one more wait. |
| HttpRequestProperties.GetDataProbesOnce | shim-src/http-request.c:82-99 | Every call makes exactly one size probe, whatever happens after it: the sized query at lines 93-94 is a different call. |
| HttpRequestProperties.PollWaitsOncePerAttempt | shim-src/http-request.c:134-153 | The loop waits exactly once per attempt it makes: the waits added equal the attempts made, counted by their size probes. |
| HttpRequestProperties.PollAccounting | shim-src/http-request.c:134-153 | The loop keeps exactly one block when it returns a snapshot. Otherwise it keeps one block exactly when its last attempt failed in the sized GetData, and none when a probe or an allocation failed or the attempts ran out. A block kept without a snapshot goes with an error status. |
| HttpRequestProperties.AttemptAccounting | shim-src/http-request.c:135-152 | One attempt either hands over to the next attempt, with its own snapshot freed and the same block count, or ends the loop: with its snapshot after a set address, or with an error, keeping a block only after a failed sized GetData. |
| HttpRequestProperties.PollFindsAddress | shim-src/http-request.c:134-153 | Polling stops at the first attempt that reports a set address. If attempts before n get through with 0.0.0.0 and attempt n with a set address, the loop returns EFI_SUCCESS after n + 1 waits. It then holds only the snapshot of attempt n, filled with that address. |
| HttpRequestProperties.PollFindsLater | shim-src/http-request.c:149-153 | The same outcome when attempt 0 reports 0.0.0.0: the freed snapshot and the skipped attempt shift the result by one. |
| HttpRequestProperties.PollExhausts | shim-src/http-request.c:134-158 | When every remaining attempt gets through with 0.0.0.0, the loop waits once per attempt, frees every snapshot and returns EFI_NOT_READY, holding nothing. |
| HttpRequestProperties.WaitAccounting | shim-src/http-request.c:123-159 | The incoming snapshot is freed. The function keeps exactly one block when it returns a snapshot. Otherwise it keeps one block exactly when its last attempt failed in the sized GetData. |
| HttpRequestProperties.WaitTimesOut | shim-src/http-request.c:129-158 | If all thirty attempts get through with 0.0.0.0, the result is EFI_NOT_READY after thirty waits, with the incoming and every fetched snapshot freed. |
| HttpRequestProperties.WaitLeaksFailedSnapshot | shim-src/http-request.c:137-142 | If the first attempt's allocation succeeds and its sized GetData fails, the wait returns that error with nothing handed back, while the fresh snapshot stays allocated. |
| HttpRequestProperties.EnsureAddressAccounting | shim-src/http-request.c:210-229 | A returned snapshot is the only block held, and the block count is unchanged. This covers a set address, a failed SetData (which returns the snapshot with its error), and a successful wait. Without a snapshot, the SetData succeeded and the wait failed. The incoming snapshot is then freed, and one block stays only when the wait ended in a failed sized GetData. No fetch is made. |
| HttpRequestProperties.EnsureAddressByDhcp | shim-src/http-request.c:212-228 | With an unset address, a successful SetData(DHCP) and polling attempts of which the first n report 0.0.0.0 and attempt n a set address, the result is EFI_SUCCESS. It holds a snapshot with that address after n + 1 waits, and the block count is unchanged. |
| HttpRequestProperties.ConfigureAndFetchAccounting | shim-src/http-request.c:198-245 | Besides the snapshot held at break_loop, the stretch keeps a block only on two paths: the response buffer of a failed fetch that delivered one, and the abandoned snapshot of a wait (after a successful SetData) that ended in a failed sized GetData. A failed first GetData, a failed SetData, and a wait that failed otherwise keep nothing more. |
| HttpRequestProperties.FetchAccounting | shim-src/http-request.c:233-245 | The fetch keeps a block only when it failed and delivered a response buffer; the buffer of a successful fetch is freed. |
| HttpRequestProperties.ConfigureFetchesWithAddress | shim-src/http-request.c:198-245 | When the interface info is read without an error and its address is set, the binding is fetched through once. The fetch's status reaches break_loop, holding the snapshot just read. |
| HttpRequestProperties.ConfigureFetchesAfterDhcp | shim-src/http-request.c:198-245 | When the info reports 0.0.0.0, the SetData(DHCP) succeeds and polling attempt n finds an address after n attempts with 0.0.0.0, the binding is fetched through once after n + 1 waits. The fetch's status reaches break_loop. |
| HttpRequestProperties.BindingAccounting | shim-src/http-request.c:181-256 | A failed print_device_path or IP4Config2 open ends the iteration with that status, leaving the live blocks as they were and asking for no DHCP. Otherwise break_loop frees the snapshot held there. The iteration then keeps a block only for a failed fetch that delivered a buffer, or for a wait that ended in a failed sized GetData. Without an error it keeps nothing and has fetched through its binding. |
| HttpRequestProperties.BindingPasses | shim-src/http-request.c:181-256 | An iteration that ends without an error fetched through its binding and kept nothing allocated. |
| HttpRequestProperties.BindingSucceeds | shim-src/http-request.c:181-256 | An iteration passes when print_device_path, the IP4Config2 open, the read of the interface info (with a set address) and the fetch all succeed. It fetches through its binding and keeps nothing allocated. |
| HttpRequestProperties.BindingSucceedsAfterDhcp | shim-src/http-request.c:181-256 | The same holds when the address is unset at first and DHCP supplies it: the SetData succeeds and polling attempt n finds an address after n attempts with 0.0.0.0. |
| HttpRequestProperties.BindingReachesFetch | shim-src/http-request.c:181-256 | After a successful print_device_path and IP4Config2 open, a stretch up to break_loop that fetches through the binding makes the iteration fetch through it. With a successful fetch, the iteration passes and keeps nothing. |
| HttpRequestProperties.TraceKeepsNothing | shim-src/http-request.c:181-256 | Iterations that each end without an error, each starting where the previous one ended, keep nothing allocated and fetch through their bindings in order. |
| HttpRequestProperties.TraceStopsAt | shim-src/http-request.c:253-255 | Entered at any iteration of such a run that ends at a failing iteration k, the loop's result is iteration k's result: nothing after it runs. |
| HttpRequestProperties.TraceRunsThrough | shim-src/http-request.c:181-256 | When every iteration from i on ends without an error, the loop runs through to the last binding and ends in the state the last iteration ends in. It ends without an error whenever at least one iteration runs. |
| HttpRequestProperties.BindingsStopAtFirstError | shim-src/http-request.c:181-256 | If iterations i to k - 1 end without an error and iteration k ends with one, the loop ends with iteration k's status and state. It has fetched through bindings i to k - 1, plus binding k when that fetch failed, and keeps at most one block. |
| HttpRequestProperties.BindingsAccounting | shim-src/http-request.c:181-256 | The loop fetches through a prefix of the bindings, in order, and leaves at most one block allocated. When it ends without an error it has fetched through every binding and keeps nothing. |
| HttpRequestProperties.SendAccounting | shim-src/http-request.c:161-264 | Every protocol opened is closed. A failed discovery changes no allocation and fetches nothing. With no binding, a buffer returned for the empty result stays allocated. Otherwise the handle buffer is freed at reclaim, at most one block stays allocated, and the fetches go through a prefix of the bindings in order. When the loop ends without an error, nothing stays allocated and every binding was fetched through. |
| HttpRequestProperties.SendAllPass | shim-src/http-request.c:161-264 | When every binding passes, the request fetches through all of them in the order of the handle buffer, frees everything it allocated, and returns EFI_SUCCESS. |

## Left out

- Console output is not modelled: `console_print`, `perror` and `print_ip4_addr_verbose` (lines 112-120) change no state the client depends on.
- The device path text is not modelled. It is modelled only as a block that may be allocated and must be freed.
- `msleep` is one step that counts waits; the amount of time is not modelled.
- `httpboot_fetch_buffer_uri` is not part of this model. Its status and whether it delivers a response buffer come from the scripts, and the URI and the size in and out are not modelled.
- `efi_main`, the globals `http_request_method` and `tx_body_json`, and the image handle are not modelled, because none of them affects a path through the code. The open mode attributes (exclusive or get-protocol) are not modelled either.
- `run_efi_qemu.py` is a launcher script and is not part of this model.
- `ip4_cfg2_get_data` is modelled only for `Ip4Config2DataTypeInterfaceInfo`, the one data type the client asks for.
- The size probe never succeeds: its replies have type `ErrorStatus`. UEFI's GetData with a zero size cannot succeed, and otherwise line 144 would dereference a NULL snapshot. As a result, the NULL check at line 206 never fires in the model.
- `LocateHandleBuffer` never returns a non-zero handle count with a NULL buffer, so the `!http_binding_handles` half of the test at line 178 is unreachable in the model. A buffer returned with zero handles is allowed, so the leak at line 178 stays reachable.
- `assert(p_ip4_cfg2_iface_info)` at line 128 holds by construction, because the caller's pointer is always a variable.
- Firmware replies are scripts fixed in advance: a reply cannot depend on the client's earlier requests beyond their order. Concurrency and firmware events are not modelled.
- The statuses of `FreePool` and `CloseProtocol` are not modelled, because the client ignores them. A close removes one matching open if there is one.
- The block count `outstanding` is a counter kept beside the live set. `WellFormed` does not require it to equal the size of the live set, and no lemma carries that equality through a run. `Platform.OutstandingCountsLive` states only that one allocation and one free move the counter and the set size by the same one. The accounting lemmas are stated with the counter. Which blocks stay live is stated separately, through the live set (`st.live <= r.state.live`, `st.nextPtr !in r.state.live`).
