/** What the bootstrap client guarantees about pool memory, protocol opens
    and the order of its work, proved of the functions in HttpRequestSpec
    (and so, through their contracts, of the methods in HttpRequest). */
module HttpRequestProperties {
  import opened Efi
  import opened Platform
  import opened HttpRequestSpec

  /** Attempt k of a polling loop started in state st gets through the size
      probe, the allocation and the sized GetData without an error. */
  ghost predicate HealthyAttempt(sc: Scripts, at: Cursors, k: nat) {
    && sc.probe(at.probe + k) == BufferTooSmall
    && !IsError(sc.alloc(at.alloc + k))
    && !IsError(sc.getInfo(at.getInfo + k).status)
  }

  /** The station address the sized GetData of attempt k reports. */
  function AddressAt(sc: Scripts, at: Cursors, k: nat): (a: Ip4Address) {
    sc.getInfo(at.getInfo + k).address
  }

  /** The first n attempts all get through without an error. */
  ghost predicate HealthyUpTo(sc: Scripts, at: Cursors, n: nat) {
    forall k :: 0 <= k < n ==> HealthyAttempt(sc, at, k)
  }

  /** The first n attempts all report an unset address. */
  ghost predicate UnsetUpTo(sc: Scripts, at: Cursors, n: nat) {
    forall k :: 0 <= k < n ==> !CheckIp4Addr(AddressAt(sc, at, k))
  }

  /** After one attempt, the m attempts still to come are those after the
      first, renumbered from zero; `rest` is m - 1, passed in the form the
      caller uses. */
  lemma ShiftHealthy(sc: Scripts, at: Cursors, next: Cursors, m: nat, rest: nat)
    requires next.probe == at.probe + 1 && next.alloc == at.alloc + 1 && next.getInfo == at.getInfo + 1
    requires rest + 1 == m && HealthyUpTo(sc, at, m)
    ensures HealthyUpTo(sc, next, rest)
  {
    forall k | 0 <= k < rest
      ensures HealthyAttempt(sc, next, k)
    {
      assert HealthyAttempt(sc, at, k + 1);
    }
  }

  /** The same renumbering for the addresses the attempts report. */
  lemma ShiftUnset(sc: Scripts, at: Cursors, next: Cursors, m: nat, rest: nat)
    requires next.getInfo == at.getInfo + 1
    requires rest + 1 == m && UnsetUpTo(sc, at, m)
    ensures UnsetUpTo(sc, next, rest) && AddressAt(sc, next, rest) == AddressAt(sc, at, m)
  {
    forall k | 0 <= k < rest
      ensures !CheckIp4Addr(AddressAt(sc, next, k))
    {
      assert !CheckIp4Addr(AddressAt(sc, at, k + 1));
    }
  }

  /** Calls other than the size probe, the allocation and GetData leave the
      attempts to come as they were: the first m + 1 still get through, the
      first m still report 0.0.0.0, and attempt m reports the same address. */
  lemma SameAttempts(sc: Scripts, at: Cursors, next: Cursors, m: nat)
    requires next.probe == at.probe && next.alloc == at.alloc && next.getInfo == at.getInfo
    requires HealthyUpTo(sc, at, m + 1) && UnsetUpTo(sc, at, m)
    ensures HealthyUpTo(sc, next, m + 1) && UnsetUpTo(sc, next, m)
    ensures AddressAt(sc, next, m) == AddressAt(sc, at, m)
  {
    forall k | 0 <= k < m + 1
      ensures HealthyAttempt(sc, next, k)
    {
      assert HealthyAttempt(sc, at, k);
    }
    forall k | 0 <= k < m
      ensures !CheckIp4Addr(AddressAt(sc, next, k))
    {
      assert !CheckIp4Addr(AddressAt(sc, at, k));
    }
  }

  /** ip4_cfg2_get_data asks for memory only after the size probe reported
      EFI_BUFFER_TOO_SMALL, returns any other probe status with nothing
      allocated, returns a failed allocation as it is, and reports
      EFI_SUCCESS only once the sized GetData has succeeded, the snapshot
      then holding the interface info that call returned.  A snapshot
      returned with an error is allocated but unfilled. */
  lemma GetDataAllocatesOnlyAfterProbe(sc: Scripts, st: PlatformState)
    requires WellFormed(st)
    ensures var r := Ip4Cfg2GetDataSpec(sc, st);
      var probe, alloc, info := sc.probe(st.used.probe), sc.alloc(st.used.alloc), sc.getInfo(st.used.getInfo);
      && r.state.used.probe == st.used.probe + 1
      && (probe != BufferTooSmall ==> r.status == probe && r.value.None? && r.state.used.alloc == st.used.alloc)
      && (probe == BufferTooSmall ==> r.state.used.alloc == st.used.alloc + 1)
      && (r.value.Some? <==> probe == BufferTooSmall && !IsError(alloc))
      && (probe == BufferTooSmall && IsError(alloc) ==> r.status == alloc)
      && (r.value.None? ==> r.state.used.getInfo == st.used.getInfo && r.state.nextPtr == st.nextPtr)
      && (r.value.Some? ==> r.value.value == st.nextPtr && r.state.nextPtr == st.nextPtr + 1)
      && (r.value.Some? ==> r.state.used.getInfo == st.used.getInfo + 1)
      && (r.value.Some? && IsError(info.status) ==> r.status == info.status && r.value.value !in r.state.memory)
      && (r.status == Success <==> r.value.Some? && !IsError(info.status))
      && (r.status == Success ==> r.state.memory[r.value.value] == info.address)
      && r.state.memory.Keys <= st.memory.Keys + {st.nextPtr}
      && r.state.outstanding == st.outstanding + (if r.value.Some? then 1 else 0)
  {
  }

  /** A size probe answered EFI_BUFFER_TOO_SMALL, an allocation and a sized
      GetData that succeed: the snapshot is the next block, filled with the
      reported interface info. */
  lemma GetDataSucceeds(sc: Scripts, st: PlatformState)
    requires WellFormed(st)
    requires sc.probe(st.used.probe) == BufferTooSmall && !IsError(sc.alloc(st.used.alloc))
    requires !IsError(sc.getInfo(st.used.getInfo).status)
    ensures var r := Ip4Cfg2GetDataSpec(sc, st);
      && r.status == Success && r.value == Some(st.nextPtr)
      && r.state.memory[st.nextPtr] == sc.getInfo(st.used.getInfo).address
      && r.state.nextPtr == st.nextPtr + 1 && r.state.outstanding == st.outstanding + 1
      && r.state.used.getInfo == st.used.getInfo + 1
      && r.state.used.probe == st.used.probe + 1 && r.state.used.alloc == st.used.alloc + 1
  {
  }

  /** The blocks ip4_cfg2_get_data leaves allocated: one exactly when it
      returns a snapshot.  A snapshot returned with an error is the one the
      failed sized GetData was given. */
  lemma GetDataAccounting(sc: Scripts, st: PlatformState)
    requires WellFormed(st)
    ensures var r := Ip4Cfg2GetDataSpec(sc, st);
      && r.state.outstanding == st.outstanding + (if r.value.Some? then 1 else 0)
      && r.state.used.getInfo == st.used.getInfo + (if r.value.Some? then 1 else 0)
      && (r.value.Some? && IsError(r.status) ==> r.status == sc.getInfo(st.used.getInfo).status)
  {
  }

  /** The outcome of a polling loop, started in state st, that stops at
      attempt n: EFI_SUCCESS after n + 1 waits, holding the snapshot of
      attempt n, filled with the address that attempt reported, and no
      other block. */
  ghost predicate FoundAt(sc: Scripts, st: PlatformState, n: nat, r: Ret<Option<Ptr>>) {
    && r.status == Success && r.value.Some? && r.value.value == st.nextPtr + n
    && r.value.value in r.state.memory && r.state.memory[r.value.value] == AddressAt(sc, st.used, n)
    && r.state.outstanding == st.outstanding + 1
    && r.state.sleeps == st.sleeps + n + 1
    && r.state.used.getInfo == st.used.getInfo + n + 1
  }

  /** An attempt that gets through and finds the address set ends the
      polling loop, handing back its snapshot. */
  lemma AttemptStops(sc: Scripts, st: PlatformState, attempt: nat)
    requires WellFormed(st) && attempt < MaxPolls
    requires HealthyAttempt(sc, st.used, 0) && CheckIp4Addr(AddressAt(sc, st.used, 0))
    ensures FoundAt(sc, st, 0, PollSpec(sc, st, attempt))
  {
    GetDataSucceeds(sc, SleepStep(st));
  }

  /** An attempt that gets through and finds the address unset frees its
      snapshot and hands over to the next attempt, from a state `next`
      that differs only in the cursors, the clock and the next address. */
  lemma AttemptSkips(sc: Scripts, st: PlatformState, attempt: nat) returns (next: PlatformState)
    requires WellFormed(st) && attempt < MaxPolls
    requires HealthyAttempt(sc, st.used, 0) && !CheckIp4Addr(AddressAt(sc, st.used, 0))
    ensures WellFormed(next) && PollSpec(sc, st, attempt) == PollSpec(sc, next, attempt + 1)
    ensures next.used.probe == st.used.probe + 1 && next.used.alloc == st.used.alloc + 1
    ensures next.used.getInfo == st.used.getInfo + 1
    ensures next.outstanding == st.outstanding && next.sleeps == st.sleeps + 1
    ensures next.nextPtr == st.nextPtr + 1
  {
    GetDataSucceeds(sc, SleepStep(st));
    var g := Ip4Cfg2GetDataSpec(sc, SleepStep(st));
    next := FreePoolStep(g.state, g.value.value);
  }

  /** With the cursors at `at`, the last size probe answered
      EFI_BUFFER_TOO_SMALL, the allocation after it succeeded and the sized
      GetData after that failed: at the end of a polling loop, its last
      attempt failed in the sized GetData. */
  ghost predicate EndedInFailedGetData(sc: Scripts, at: Cursors) {
    && at.probe > 0 && at.alloc > 0 && at.getInfo > 0
    && sc.probe(at.probe - 1) == BufferTooSmall && !IsError(sc.alloc(at.alloc - 1))
    && IsError(sc.getInfo(at.getInfo - 1).status)
  }

  /** Between the cursors `before` and `after`, lines 210-229 switched the
      interface to DHCP, and the wait that followed ended in a failed sized
      GetData. */
  ghost predicate WaitAbandoned(sc: Scripts, before: Cursors, after: Cursors) {
    && after.setPolicy > before.setPolicy && !IsError(sc.setPolicy(after.setPolicy - 1))
    && EndedInFailedGetData(sc, after)
  }

  /** The polling loop keeps the snapshot it returns and, besides it, one
      block exactly when it gave up because the sized GetData of its last
      attempt failed: that unfilled snapshot is neither freed nor handed
      back.  A failed size probe or allocation, and running out of
      attempts, leave nothing behind. */
  lemma {:induction false} PollAccounting(sc: Scripts, st: PlatformState, attempt: nat)
    requires WellFormed(st) && attempt <= MaxPolls
    ensures var r := PollSpec(sc, st, attempt);
      r.value.Some? ==> r.state.outstanding == st.outstanding + 1 && !EndedInFailedGetData(sc, r.state.used)
    ensures var r := PollSpec(sc, st, attempt);
      r.value.None? ==>
        r.state.outstanding == st.outstanding + (if attempt < MaxPolls && EndedInFailedGetData(sc, r.state.used) then 1 else 0)
    ensures var r := PollSpec(sc, st, attempt);
      r.value.None? && r.state.outstanding != st.outstanding ==> IsError(r.status)
    decreases MaxPolls - attempt
  {
    if attempt < MaxPolls {
      var skip, next := AttemptAccounting(sc, st, attempt);
      if skip {
        PollAccounting(sc, next, attempt + 1);
      }
    }
  }

  /** One attempt of the polling loop either ends it, keeping the snapshot
      it returns or, when it fails, the unfilled snapshot of a failed sized
      GetData, or frees its snapshot and hands over to the next attempt. */
  lemma AttemptAccounting(sc: Scripts, st: PlatformState, attempt: nat) returns (skip: bool, next: PlatformState)
    requires WellFormed(st) && attempt < MaxPolls
    ensures skip ==>
      && WellFormed(next) && PollSpec(sc, st, attempt) == PollSpec(sc, next, attempt + 1)
      && next.outstanding == st.outstanding && !EndedInFailedGetData(sc, next.used)
    ensures var r := PollSpec(sc, st, attempt);
      !skip ==>
        && (r.value.Some? ==> r.state.outstanding == st.outstanding + 1 && !EndedInFailedGetData(sc, r.state.used))
        && (r.value.None? ==>
              && IsError(r.status)
              && r.state.outstanding == st.outstanding + (if EndedInFailedGetData(sc, r.state.used) then 1 else 0))
  {
    var st1 := SleepStep(st);
    var g := Ip4Cfg2GetDataSpec(sc, st1);
    AttemptUnfolds(sc, st, attempt);
    skip := !IsError(g.status) && !CheckIp4Addr(g.state.memory[g.value.value]);
    GetDataLeftover(sc, st1);
    if IsError(g.status) {
      next := st;
    } else {
      GetDataAccounting(sc, st1);
      next := if skip then FreePoolStep(g.state, g.value.value) else st;
    }
  }

  /** The three ways an attempt goes: a failed fetch of the interface info
      ends the loop with that status, a snapshot with a set address ends it
      with EFI_SUCCESS, and one with an unset address is freed before the
      next attempt. */
  lemma AttemptUnfolds(sc: Scripts, st: PlatformState, attempt: nat)
    requires WellFormed(st) && attempt < MaxPolls
    ensures var g := Ip4Cfg2GetDataSpec(sc, SleepStep(st));
      && (IsError(g.status) ==> PollSpec(sc, st, attempt) == Ret(g.status, None, g.state))
      && (!IsError(g.status) ==>
            && g.value.Some? && g.value.value in g.state.memory && g.value.value in g.state.live
            && (CheckIp4Addr(g.state.memory[g.value.value]) ==> PollSpec(sc, st, attempt) == Ret(Success, g.value, g.state))
            && (!CheckIp4Addr(g.state.memory[g.value.value]) ==>
                  PollSpec(sc, st, attempt) == PollSpec(sc, FreePoolStep(g.state, g.value.value), attempt + 1)))
  {
  }

  /** ip4_cfg2_get_data always starts with the size probe, and probes once. */
  lemma GetDataProbesOnce(sc: Scripts, st: PlatformState)
    requires WellFormed(st)
    ensures Ip4Cfg2GetDataSpec(sc, st).state.used.probe == st.used.probe + 1
  {
    var probe := GetDataSizeStep(sc, st);
    if probe.status == BufferTooSmall {
      var a := AllocatePoolStep(sc, probe.state);
      if !IsError(a.status) {
        assert GetDataStep(sc, a.state, a.value.value).state.used.probe == st.used.probe + 1;
      }
    }
  }

  /** The polling loop waits exactly once per attempt it makes: every
      attempt sleeps before it reads the interface info, and every read
      starts with one size probe. */
  lemma {:induction false} PollWaitsOncePerAttempt(sc: Scripts, st: PlatformState, attempt: nat)
    requires WellFormed(st) && attempt <= MaxPolls
    ensures var r := PollSpec(sc, st, attempt);
      r.state.sleeps - st.sleeps == r.state.used.probe - st.used.probe
    decreases MaxPolls - attempt
  {
    if attempt < MaxPolls {
      var st1 := SleepStep(st);
      var g := Ip4Cfg2GetDataSpec(sc, st1);
      AttemptUnfolds(sc, st, attempt);
      GetDataProbesOnce(sc, st1);
      if !IsError(g.status) && !CheckIp4Addr(g.state.memory[g.value.value]) {
        PollWaitsOncePerAttempt(sc, FreePoolStep(g.state, g.value.value), attempt + 1);
      }
    }
  }

  /** A failed ip4_cfg2_get_data keeps a block exactly when the failure
      came from the sized GetData, after a successful allocation; a
      successful one did not end in a failed sized GetData. */
  lemma GetDataLeftover(sc: Scripts, st: PlatformState)
    requires WellFormed(st)
    ensures var r := Ip4Cfg2GetDataSpec(sc, st);
      IsError(r.status) ==> r.state.outstanding == st.outstanding + (if EndedInFailedGetData(sc, r.state.used) then 1 else 0)
    ensures var r := Ip4Cfg2GetDataSpec(sc, st);
      !IsError(r.status) ==> !EndedInFailedGetData(sc, r.state.used)
  {
    GetDataAllocatesOnlyAfterProbe(sc, st);
  }

  /** Polling stops at the first attempt whose address is set: when the
      attempts before attempt n all succeed with an unset address and
      attempt n succeeds with a set one, the loop returns EFI_SUCCESS after
      n + 1 waits, holding the snapshot of attempt n and no other block. */
  lemma {:induction false} PollFindsAddress(sc: Scripts, st: PlatformState, attempt: nat, n: nat)
    requires WellFormed(st) && attempt + n < MaxPolls
    requires HealthyUpTo(sc, st.used, n + 1) && UnsetUpTo(sc, st.used, n) && CheckIp4Addr(AddressAt(sc, st.used, n))
    ensures FoundAt(sc, st, n, PollSpec(sc, st, attempt))
    decreases n, 1
  {
    assert HealthyAttempt(sc, st.used, 0);
    if n == 0 {
      AttemptStops(sc, st, attempt);
    } else {
      PollFindsLater(sc, st, attempt, n);
    }
  }

  /** The case of PollFindsAddress where attempt 0 finds the address unset. */
  lemma {:induction false} PollFindsLater(sc: Scripts, st: PlatformState, attempt: nat, n: nat)
    requires WellFormed(st) && attempt + n < MaxPolls && n > 0
    requires HealthyUpTo(sc, st.used, n + 1) && UnsetUpTo(sc, st.used, n) && CheckIp4Addr(AddressAt(sc, st.used, n))
    ensures FoundAt(sc, st, n, PollSpec(sc, st, attempt))
    decreases n, 0
  {
    assert HealthyAttempt(sc, st.used, 0) && !CheckIp4Addr(AddressAt(sc, st.used, 0));
    var next := AttemptSkips(sc, st, attempt);
    ShiftHealthy(sc, st.used, next.used, n + 1, n);
    ShiftUnset(sc, st.used, next.used, n, n - 1);
    PollFindsAddress(sc, next, attempt + 1, n - 1);
  }

  /** When every remaining attempt succeeds with an unset address, the loop
      waits once per attempt, frees every snapshot and gives up with
      EFI_NOT_READY, holding nothing. */
  lemma {:induction false} PollExhausts(sc: Scripts, st: PlatformState, attempt: nat)
    requires WellFormed(st) && attempt <= MaxPolls
    requires HealthyUpTo(sc, st.used, MaxPolls - attempt) && UnsetUpTo(sc, st.used, MaxPolls - attempt)
    ensures var r := PollSpec(sc, st, attempt);
      && r.status == NotReady && r.value.None?
      && r.state.outstanding == st.outstanding
      && r.state.sleeps == st.sleeps + (MaxPolls - attempt)
      && r.state.used.getInfo == st.used.getInfo + (MaxPolls - attempt)
    decreases MaxPolls - attempt
  {
    if attempt == MaxPolls {
      return;
    }
    assert HealthyAttempt(sc, st.used, 0) && !CheckIp4Addr(AddressAt(sc, st.used, 0));
    var next := AttemptSkips(sc, st, attempt);
    ShiftHealthy(sc, st.used, next.used, MaxPolls - attempt, MaxPolls - (attempt + 1));
    ShiftUnset(sc, st.used, next.used, MaxPolls - attempt, MaxPolls - (attempt + 1));
    PollExhausts(sc, next, attempt + 1);
  }

  /** wait_until_get_iface_info frees the snapshot it is given and keeps at
      most one block: the snapshot it returns with EFI_SUCCESS, or the
      abandoned snapshot of a last attempt whose sized GetData failed. */
  lemma WaitAccounting(sc: Scripts, st: PlatformState, p: Option<Ptr>)
    requires WellFormed(st) && (p.Some? ==> p.value in st.live)
    ensures var r := WaitUntilGetIfaceInfoSpec(sc, st, p);
      var kept := st.outstanding - (if p.Some? then 1 else 0);
      && (r.value.Some? ==> r.state.outstanding == kept + 1 && !EndedInFailedGetData(sc, r.state.used))
      && (r.value.None? ==> r.state.outstanding == kept + (if EndedInFailedGetData(sc, r.state.used) then 1 else 0))
  {
    var st1 := if p.Some? then FreePoolStep(st, p.value) else st;
    PollAccounting(sc, st1, 0);
  }

  /** When all thirty attempts succeed with an unset address,
      wait_until_get_iface_info returns EFI_NOT_READY after thirty waits,
      with the snapshot it was given and every snapshot it fetched freed
      and nothing handed back. */
  lemma WaitTimesOut(sc: Scripts, st: PlatformState, p: Option<Ptr>)
    requires WellFormed(st) && (p.Some? ==> p.value in st.live)
    requires HealthyUpTo(sc, st.used, MaxPolls) && UnsetUpTo(sc, st.used, MaxPolls)
    ensures var r := WaitUntilGetIfaceInfoSpec(sc, st, p);
      && r.status == NotReady && r.value.None?
      && r.state.outstanding == st.outstanding - (if p.Some? then 1 else 0)
      && r.state.sleeps == st.sleeps + MaxPolls
  {
    var st1 := if p.Some? then FreePoolStep(st, p.value) else st;
    assert st1.used == st.used;
    PollExhausts(sc, st1, 0);
  }

  /** As written, an attempt whose allocation succeeded but whose sized
      GetData failed ends the wait with that error and NULL in the caller's
      pointer, while the snapshot stays allocated. */
  lemma WaitLeaksFailedSnapshot(sc: Scripts, st: PlatformState, p: Option<Ptr>)
    requires WellFormed(st) && (p.Some? ==> p.value in st.live)
    requires sc.probe(st.used.probe) == BufferTooSmall && !IsError(sc.alloc(st.used.alloc))
    requires IsError(sc.getInfo(st.used.getInfo).status)
    ensures var r := WaitUntilGetIfaceInfoSpec(sc, st, p);
      && r.status == sc.getInfo(st.used.getInfo).status && r.value.None?
      && st.nextPtr !in st.live && st.nextPtr in r.state.live
  {
    var st1 := if p.Some? then FreePoolStep(st, p.value) else st;
    GetDataAllocatesOnlyAfterProbe(sc, SleepStep(st1));
  }

  /** Lines 210-229 keep the snapshot they hold afterwards and nothing
      else, except after a wait that ended in a failed sized GetData: then
      the snapshot passed in is freed and that attempt's block stays
      allocated.  A failed SetData still holds the snapshot. */
  lemma EnsureAddressAccounting(sc: Scripts, st: PlatformState, info: Ptr)
    requires WellFormed(st) && info in st.memory
    ensures var r := EnsureAddressSpec(sc, st, info);
      && (r.value.Some? ==> r.state.outstanding == st.outstanding)
      && (r.value.None? ==> IsError(r.status) && r.state.used.setPolicy == st.used.setPolicy + 1)
      && (r.value.None? ==> !IsError(sc.setPolicy(st.used.setPolicy)))
      && (r.value.None? ==>
            r.state.outstanding == st.outstanding - 1 + (if EndedInFailedGetData(sc, r.state.used) then 1 else 0))
      && (r.value.Some? <==> !WaitAbandoned(sc, st.used, r.state.used) && r.state.outstanding == st.outstanding)
      && r.state.fetched == st.fetched
  {
    if !CheckIp4Addr(st.memory[info]) {
      var s := SetDhcpPolicyStep(sc, st);
      if !IsError(s.status) {
        WaitAccounting(sc, s.state, Some(info));
      }
    }
  }

  /** Lines 212-228 on their successful path: with the address unset, a
      SetData(DHCP) that succeeds and polling attempts of which the first n
      report 0.0.0.0 and attempt n a set address, the step ends with
      EFI_SUCCESS after n + 1 waits.  It holds the snapshot of attempt n in
      place of the one passed in, so the block count is unchanged. */
  lemma EnsureAddressByDhcp(sc: Scripts, st: PlatformState, info: Ptr, n: nat)
    requires WellFormed(st) && info in st.memory && !CheckIp4Addr(st.memory[info])
    requires !IsError(sc.setPolicy(st.used.setPolicy)) && n < MaxPolls
    requires HealthyUpTo(sc, st.used, n + 1) && UnsetUpTo(sc, st.used, n) && CheckIp4Addr(AddressAt(sc, st.used, n))
    ensures var r := EnsureAddressSpec(sc, st, info);
      && r.status == Success && r.value.Some?
      && r.state.memory[r.value.value] == AddressAt(sc, st.used, n)
      && r.state.outstanding == st.outstanding && r.state.sleeps == st.sleeps + n + 1
  {
    var s := SetDhcpPolicyStep(sc, st);
    var st1 := FreePoolStep(s.state, info);
    SameAttempts(sc, st.used, st1.used, n);
    PollFindsAddress(sc, st1, 0, n);
    assert EnsureAddressSpec(sc, st, info) == PollSpec(sc, st1, 0);
  }

  /** Up to the label break_loop an iteration keeps, besides the snapshot
      it holds there, one block at most, on two paths only: the response
      buffer of a failed fetch, and the abandoned snapshot of a wait that
      ended in a failed sized GetData.  A failed first GetData, a failed
      SetData, and a wait that failed otherwise keep nothing more. */
  lemma ConfigureAndFetchAccounting(sc: Scripts, st: PlatformState, h: Handle)
    requires WellFormed(st)
    ensures var r := ConfigureAndFetchSpec(sc, st, h);
      var rest := r.state.outstanding - (if r.value.Some? then 1 else 0);
      && (r.state.fetched != st.fetched ==>
            rest == st.outstanding + (if IsError(r.status) && sc.fetch(st.used.fetch).buffer then 1 else 0))
      && (r.state.fetched == st.fetched ==>
            rest == st.outstanding + (if WaitAbandoned(sc, st.used, r.state.used) then 1 else 0))
  {
    var g := Ip4Cfg2GetDataSpec(sc, st);
    GetDataAccounting(sc, st);
    if IsError(g.status) || g.value.None? {
      assert ConfigureAndFetchSpec(sc, st, h) == g;
    } else {
      var ready := EnsureAddressSpec(sc, g.state, g.value.value);
      EnsureAddressAccounting(sc, g.state, g.value.value);
      if IsError(ready.status) {
        assert ConfigureAndFetchSpec(sc, st, h) == ready;
      } else {
        var f := FetchResponseSpec(sc, ready.state, h);
        FetchAccounting(sc, ready.state, h);
        assert ConfigureAndFetchSpec(sc, st, h) == Ret(f.status, ready.value, f.state);
      }
    }
  }

  /** Lines 230-245 keep the response buffer of a failed fetch and nothing
      else; the buffer of a successful one is freed. */
  lemma FetchAccounting(sc: Scripts, st: PlatformState, h: Handle)
    requires WellFormed(st)
    ensures var r := FetchResponseSpec(sc, st, h);
      r.state.outstanding == st.outstanding + (if IsError(r.status) && sc.fetch(st.used.fetch).buffer then 1 else 0)
  {
  }

  /** Lines 198-245 reach the fetch when the interface info is read without
      an error and its address is already set: the binding is fetched
      through once, the fetch's status reaches break_loop, and the snapshot
      held there is the one just read. */
  lemma ConfigureFetchesWithAddress(sc: Scripts, st: PlatformState, h: Handle)
    requires WellFormed(st) && HealthyAttempt(sc, st.used, 0) && CheckIp4Addr(AddressAt(sc, st.used, 0))
    ensures var r := ConfigureAndFetchSpec(sc, st, h);
      && r.state.fetched == st.fetched + [h] && r.status == sc.fetch(st.used.fetch).status
      && r.value == Some(st.nextPtr)
  {
    GetDataSucceeds(sc, st);
  }

  /** Lines 198-245 reach the fetch through DHCP as well: the interface info
      is read without an error but reports 0.0.0.0, the SetData(DHCP)
      succeeds, and of the polling attempts after it the first n report
      0.0.0.0 and attempt n a set address.  The binding is then fetched
      through once after n + 1 waits, and the fetch's status reaches
      break_loop. */
  lemma ConfigureFetchesAfterDhcp(sc: Scripts, st: PlatformState, h: Handle, n: nat)
    requires WellFormed(st) && n < MaxPolls && !IsError(sc.setPolicy(st.used.setPolicy))
    requires HealthyUpTo(sc, st.used, n + 2) && UnsetUpTo(sc, st.used, n + 1) && CheckIp4Addr(AddressAt(sc, st.used, n + 1))
    ensures var r := ConfigureAndFetchSpec(sc, st, h);
      && r.state.fetched == st.fetched + [h] && r.status == sc.fetch(st.used.fetch).status
      && r.state.sleeps == st.sleeps + n + 1
  {
    assert HealthyAttempt(sc, st.used, 0) && !CheckIp4Addr(AddressAt(sc, st.used, 0));
    GetDataSucceeds(sc, st);
    var g := Ip4Cfg2GetDataSpec(sc, st);
    ShiftHealthy(sc, st.used, g.state.used, n + 2, n + 1);
    ShiftUnset(sc, st.used, g.state.used, n + 1, n);
    EnsureAddressByDhcp(sc, g.state, g.value.value, n);
  }

  /** One iteration of send_http_get_request: a failed print_device_path or
      IP4Config2 open ends it with that status, leaving the live blocks as
      they were.  Otherwise break_loop frees the snapshot held there, so the
      iteration keeps one block at most: the response buffer of a failed
      fetch, or the abandoned snapshot of a wait that ended in a failed
      sized GetData.  Without an error nothing is kept. */
  lemma BindingAccounting(sc: Scripts, st: PlatformState, h: Handle)
    requires WellFormed(st)
    ensures var r := BindingSpec(sc, st, h);
      var d := PrintDevicePathSpec(sc, st, h);
      && (IsError(d.status) ==> r.status == d.status && r.state.live == st.live && r.state.used.setPolicy == st.used.setPolicy)
      && (!IsError(d.status) && IsError(sc.open(d.state.used.open)) ==>
            r.status == sc.open(d.state.used.open) && r.state.live == st.live && r.state.used.setPolicy == st.used.setPolicy)
    ensures var r := BindingSpec(sc, st, h);
      && (r.state.fetched != st.fetched ==>
            r.state.outstanding == st.outstanding + (if IsError(r.status) && sc.fetch(st.used.fetch).buffer then 1 else 0))
      && (r.state.fetched == st.fetched ==>
            r.state.outstanding == st.outstanding + (if WaitAbandoned(sc, st.used, r.state.used) then 1 else 0))
      && (!IsError(r.status) ==> r.state.outstanding == st.outstanding && r.state.fetched == st.fetched + [h])
      && st.outstanding <= r.state.outstanding <= st.outstanding + 1
  {
    var d := PrintDevicePathSpec(sc, st, h);
    assert d.state.used.setPolicy == st.used.setPolicy;
    if IsError(d.status) {
      assert BindingSpec(sc, st, h) == d;
    } else {
      var config := Opening(h, Ip4Config2);
      var o := OpenProtocolStep(sc, d.state, config);
      if IsError(o.status) {
        assert BindingSpec(sc, st, h) == o;
      } else {
        var b := ConfigureAndFetchSpec(sc, o.state, h);
        ConfigureAndFetchAccounting(sc, o.state, h);
        var st1 := if b.value.Some? then FreePoolStep(b.state, b.value.value) else b.state;
        var r := Done(b.status, CloseProtocolStep(st1, config));
        assert BindingSpec(sc, st, h) == r;
        assert o.state.used.setPolicy == st.used.setPolicy && r.state.used == b.state.used;
        assert WaitAbandoned(sc, st.used, r.state.used) == WaitAbandoned(sc, o.state.used, b.state.used);
      }
    }
  }

  /** An iteration that ends without an error fetched through its binding
      and kept nothing allocated. */
  lemma BindingPasses(sc: Scripts, st: PlatformState, h: Handle)
    requires WellFormed(st)
    ensures var r := BindingSpec(sc, st, h);
      !IsError(r.status) ==> r.state.outstanding == st.outstanding && r.state.fetched == st.fetched + [h]
  {
    BindingAccounting(sc, st, h);
  }

  /** An iteration passes when everything on its way to the fetch succeeds
      and the interface already has an address: print_device_path and the
      IP4Config2 open succeed, the interface info is read without an error
      and is not 0.0.0.0, and the fetch succeeds.  It then fetches through
      its binding and keeps nothing allocated. */
  lemma BindingSucceeds(sc: Scripts, st: PlatformState, h: Handle)
    requires WellFormed(st)
    requires var d := PrintDevicePathSpec(sc, st, h);
      && !IsError(d.status) && !IsError(sc.open(d.state.used.open))
      && HealthyAttempt(sc, d.state.used, 0) && CheckIp4Addr(AddressAt(sc, d.state.used, 0))
      && !IsError(sc.fetch(st.used.fetch).status)
    ensures var r := BindingSpec(sc, st, h);
      && !IsError(r.status) && r.state.fetched == st.fetched + [h] && r.state.outstanding == st.outstanding
  {
    var d := PrintDevicePathSpec(sc, st, h);
    var o := OpenProtocolStep(sc, d.state, Opening(h, Ip4Config2));
    assert HealthyAttempt(sc, o.state.used, 0) && AddressAt(sc, o.state.used, 0) == AddressAt(sc, d.state.used, 0);
    ConfigureFetchesWithAddress(sc, o.state, h);
    BindingReachesFetch(sc, st, h);
  }

  /** An iteration passes through DHCP as well: print_device_path and the
      IP4Config2 open succeed, the interface info is read without an error
      but is 0.0.0.0, the SetData(DHCP) succeeds, of the polling attempts
      the first n report 0.0.0.0 and attempt n a set address, and the fetch
      succeeds.  It then fetches through its binding and keeps nothing
      allocated. */
  lemma BindingSucceedsAfterDhcp(sc: Scripts, st: PlatformState, h: Handle, n: nat)
    requires WellFormed(st) && n < MaxPolls
    requires var d := PrintDevicePathSpec(sc, st, h);
      && !IsError(d.status) && !IsError(sc.open(d.state.used.open))
      && HealthyUpTo(sc, d.state.used, n + 2) && UnsetUpTo(sc, d.state.used, n + 1)
      && CheckIp4Addr(AddressAt(sc, d.state.used, n + 1))
      && !IsError(sc.setPolicy(st.used.setPolicy)) && !IsError(sc.fetch(st.used.fetch).status)
    ensures var r := BindingSpec(sc, st, h);
      && !IsError(r.status) && r.state.fetched == st.fetched + [h] && r.state.outstanding == st.outstanding
  {
    var d := PrintDevicePathSpec(sc, st, h);
    var o := OpenProtocolStep(sc, d.state, Opening(h, Ip4Config2));
    SameAttempts(sc, d.state.used, o.state.used, n + 1);
    ConfigureFetchesAfterDhcp(sc, o.state, h, n);
    BindingReachesFetch(sc, st, h);
  }

  /** When print_device_path and the IP4Config2 open succeed and lines
      198-245 fetch through the binding, so does the iteration, and a
      successful fetch makes it pass without keeping anything. */
  lemma BindingReachesFetch(sc: Scripts, st: PlatformState, h: Handle)
    requires WellFormed(st)
    requires var d := PrintDevicePathSpec(sc, st, h);
      && !IsError(d.status) && !IsError(sc.open(d.state.used.open))
      && var o := OpenProtocolStep(sc, d.state, Opening(h, Ip4Config2));
         ConfigureAndFetchSpec(sc, o.state, h).state.fetched == o.state.fetched + [h]
    requires !IsError(sc.fetch(st.used.fetch).status)
    ensures var r := BindingSpec(sc, st, h);
      && !IsError(r.status) && r.state.fetched == st.fetched + [h] && r.state.outstanding == st.outstanding
  {
    var d := PrintDevicePathSpec(sc, st, h);
    var config := Opening(h, Ip4Config2);
    var o := OpenProtocolStep(sc, d.state, config);
    var b := ConfigureAndFetchSpec(sc, o.state, h);
    var st1 := if b.value.Some? then FreePoolStep(b.state, b.value.value) else b.state;
    assert BindingSpec(sc, st, h) == Done(b.status, CloseProtocolStep(st1, config));
    BindingAccounting(sc, st, h);
  }

  /** A trace of the loop of send_http_get_request: states[j] is the state
      in which iteration j starts, for j from i to k, and iterations i to
      k - 1 each end without an error, the next one starting where the
      previous one ended. */
  ghost predicate PassingTrace(sc: Scripts, handles: seq<Handle>, i: nat, k: nat, states: seq<PlatformState>) {
    && i <= k <= |handles| && |states| == |handles| + 1
    && (forall j :: i <= j <= k ==> WellFormed(states[j]))
    && forall j {:trigger BindingSpec(sc, states[j], handles[j])} :: i <= j < k ==>
         && !IsError(BindingSpec(sc, states[j], handles[j]).status)
         && states[j + 1] == BindingSpec(sc, states[j], handles[j]).state
  }

  /** Fetching through bindings i to m - 2 and then through binding m - 1
      is fetching through bindings i to m - 1. */
  lemma FetchedOneMore(f0: seq<Handle>, f1: seq<Handle>, f: seq<Handle>, handles: seq<Handle>, i: nat, m: nat)
    requires i < m <= |handles| && f1 == f0 + handles[i..m - 1] && f == f1 + [handles[m - 1]]
    ensures f == f0 + handles[i..m]
  {
    assert handles[i..m] == handles[i..m - 1] + [handles[m - 1]];
  }

  /** One step of a trace keeps nothing allocated and fetches through its
      binding. */
  lemma TraceStep(sc: Scripts, handles: seq<Handle>, i: nat, k: nat, states: seq<PlatformState>, j: nat)
    requires PassingTrace(sc, handles, i, k, states) && i <= j < k
    ensures states[j + 1].outstanding == states[j].outstanding
    ensures states[j + 1].fetched == states[j].fetched + [handles[j]]
  {
    BindingPasses(sc, states[j], handles[j]);
  }

  /** Iterations that all end without an error keep nothing allocated and
      fetch through their bindings in order: by iteration m of a trace, the
      fetches are through bindings i to m - 1. */
  lemma {:induction false} TraceKeepsNothing(sc: Scripts, handles: seq<Handle>, i: nat, k: nat, states: seq<PlatformState>, m: nat)
    requires PassingTrace(sc, handles, i, k, states) && i <= m <= k
    ensures states[m].outstanding == states[i].outstanding
    ensures states[m].fetched == states[i].fetched + handles[i..m]
    decreases m
  {
    if i < m {
      TraceKeepsNothing(sc, handles, i, k, states, m - 1);
      TraceStep(sc, handles, i, k, states, m - 1);
      FetchedOneMore(states[i].fetched, states[m - 1].fetched, states[m].fetched, handles, i, m);
    } else {
      assert states[i].fetched + handles[i..m] == states[i].fetched;
    }
  }

  /** A passing iteration of a trace hands the loop over to the next one,
      from the state it ends in and with its own status. */
  lemma TraceAdvances(sc: Scripts, handles: seq<Handle>, i: nat, k: nat, states: seq<PlatformState>, m: nat, status: Status)
    requires PassingTrace(sc, handles, i, k, states) && i <= m < k
    ensures var b := BindingSpec(sc, states[m], handles[m]);
      && !IsError(b.status)
      && BindingsSpec(sc, states[m], handles, m, status) == BindingsSpec(sc, states[m + 1], handles, m + 1, b.status)
  {
  }

  /** Entered at any iteration m of a trace that ends at iteration k, the
      loop ends with the result of iteration k when that one fails. */
  lemma {:induction false} TraceStopsAt(sc: Scripts, handles: seq<Handle>, i: nat, k: nat, states: seq<PlatformState>, m: nat, status: Status)
    requires PassingTrace(sc, handles, i, k, states) && k < |handles| && i <= m <= k
    requires IsError(BindingSpec(sc, states[k], handles[k]).status)
    ensures BindingsSpec(sc, states[m], handles, m, status) == BindingSpec(sc, states[k], handles[k])
    decreases k - m
  {
    if m < k {
      var b := BindingSpec(sc, states[m], handles[m]);
      TraceStopsAt(sc, handles, i, k, states, m + 1, b.status);
    }
  }

  /** When every iteration from i on ends without an error, the loop runs
      through to the last binding: from iteration m on it ends in the state
      the last iteration ends in, and without an error unless it had no
      iteration left to run and already held one. */
  lemma {:induction false} TraceRunsThrough(sc: Scripts, handles: seq<Handle>, i: nat, states: seq<PlatformState>, m: nat, status: Status)
    requires PassingTrace(sc, handles, i, |handles|, states) && i <= m <= |handles|
    ensures BindingsSpec(sc, states[m], handles, m, status).state == states[|handles|]
    ensures (m < |handles| || !IsError(status)) ==> !IsError(BindingsSpec(sc, states[m], handles, m, status).status)
    decreases |handles| - m
  {
    if m < |handles| {
      var b := BindingSpec(sc, states[m], handles[m]);
      TraceAdvances(sc, handles, i, |handles|, states, m, status);
      TraceRunsThrough(sc, handles, i, states, m + 1, b.status);
      assert !IsError(BindingsSpec(sc, states[m + 1], handles, m + 1, b.status).status);
    } else {
      assert BindingsSpec(sc, states[m], handles, m, status) == Done(status, states[m]);
    }
  }

  /** The loop stops at the first iteration that ends with an error: when
      iterations i to k - 1 end without one and iteration k ends with one,
      the loop ends with the status and the state of iteration k.  It has
      then fetched through bindings i to k - 1, and through binding k too
      when the error came from that fetch, and keeps at most one block. */
  lemma BindingsStopAtFirstError(sc: Scripts, handles: seq<Handle>, i: nat, k: nat, states: seq<PlatformState>, status: Status)
    requires PassingTrace(sc, handles, i, k, states) && k < |handles|
    requires IsError(BindingSpec(sc, states[k], handles[k]).status)
    ensures var r := BindingsSpec(sc, states[i], handles, i, status);
      && r == BindingSpec(sc, states[k], handles[k])
      && (r.state.fetched == states[i].fetched + handles[i..k] || r.state.fetched == states[i].fetched + handles[i..k + 1])
      && states[i].outstanding <= r.state.outstanding <= states[i].outstanding + 1
  {
    TraceStopsAt(sc, handles, i, k, states, i, status);
    TraceKeepsNothing(sc, handles, i, k, states, k);
    var last := BindingSpec(sc, states[k], handles[k]);
    BindingAccounting(sc, states[k], handles[k]);
    if last.state.fetched != states[k].fetched {
      FetchedOneMore(states[i].fetched, states[k].fetched, last.state.fetched, handles, i, k + 1);
    }
  }

  /** The fetches of one iteration, which stops the loop, extend the
      record by a prefix of the bindings from i on. */
  lemma FetchedOnce(f0: seq<Handle>, f: seq<Handle>, handles: seq<Handle>, i: nat)
    requires i < |handles| && (f == f0 || f == f0 + [handles[i]])
    ensures f0 <= f && f[|f0|..] <= handles[i..]
  {
    assert f[|f0|..] == [] || f[|f0|..] == [handles[i]];
  }

  /** The fetches of iteration i followed by a prefix of those from i + 1
      on are a prefix of those from i on. */
  lemma FetchedThenMore(f0: seq<Handle>, f1: seq<Handle>, f: seq<Handle>, handles: seq<Handle>, i: nat)
    requires i < |handles| && f1 == f0 + [handles[i]]
    requires f1 <= f && f[|f1|..] <= handles[i + 1..]
    ensures f0 <= f && f[|f0|..] <= handles[i..]
    ensures f == f1 + handles[i + 1..] ==> f == f0 + handles[i..]
  {
    assert f[|f0|..] == [handles[i]] + f[|f1|..];
    assert handles[i..] == [handles[i]] + handles[i + 1..];
  }

  /** The loop of send_http_get_request serves the bindings in order: the
      fetches it makes are through a prefix of the bindings from i on, all
      of them when it ends without an error, and it keeps at most one
      abandoned block, none when it ends without an error. */
  lemma {:induction false} BindingsAccounting(sc: Scripts, st: PlatformState, handles: seq<Handle>, i: nat, status: Status)
    requires WellFormed(st) && i <= |handles|
    ensures var r := BindingsSpec(sc, st, handles, i, status);
      && (!IsError(r.status) ==> r.state.outstanding == st.outstanding && r.state.fetched == st.fetched + handles[i..])
      && st.outstanding <= r.state.outstanding <= st.outstanding + 1
      && st.fetched <= r.state.fetched && r.state.fetched[|st.fetched|..] <= handles[i..]
    decreases |handles| - i
  {
    if i == |handles| {
      assert st.fetched[|st.fetched|..] == [];
    } else {
      var b := BindingSpec(sc, st, handles[i]);
      BindingAccounting(sc, st, handles[i]);
      if IsError(b.status) {
        FetchedOnce(st.fetched, b.state.fetched, handles, i);
      } else {
        BindingsAccounting(sc, b.state, handles, i + 1, b.status);
        var r := BindingsSpec(sc, b.state, handles, i + 1, b.status);
        FetchedThenMore(st.fetched, b.state.fetched, r.state.fetched, handles, i);
      }
    }
  }

  /** send_http_get_request closes every protocol it opens.  A failed
      discovery changes nothing; with no binding it returns EFI_NOT_FOUND,
      leaving allocated a handle buffer the firmware returned for an empty
      result.  Otherwise it frees the handle buffer at reclaim and keeps at
      most one abandoned block, whatever the bindings did; when every
      iteration ends without an error it keeps nothing and has fetched
      through every binding, in order. */
  lemma SendAccounting(sc: Scripts, st: PlatformState)
    requires WellFormed(st)
    ensures var r := SendHttpGetRequestSpec(sc, st);
      var reply := sc.locate(st.used.locate);
      && r.state.openProtocols == st.openProtocols
      && (IsError(reply.status) ==> r.state.outstanding == st.outstanding && r.state.fetched == st.fetched)
      && (!IsError(reply.status) && |reply.handles| == 0 ==>
            && r.state.outstanding == st.outstanding + (if reply.bufferWhenEmpty then 1 else 0)
            && r.state.fetched == st.fetched)
      && (!IsError(reply.status) && |reply.handles| > 0 ==>
            && st.nextPtr !in r.state.live
            && st.outstanding <= r.state.outstanding <= st.outstanding + 1
            && st.fetched <= r.state.fetched && r.state.fetched[|st.fetched|..] <= reply.handles)
    ensures var r := SendHttpGetRequestSpec(sc, st);
      var l := LocateHandleBufferStep(sc, st);
      && !IsError(l.status) && |l.handles| > 0 && !IsError(BindingsSpec(sc, l.state, l.handles, 0, l.status).status) ==>
           r.state.outstanding == st.outstanding && r.state.fetched == st.fetched + l.handles
  {
    var l := LocateHandleBufferStep(sc, st);
    if !IsError(l.status) && |l.handles| > 0 {
      BindingsAccounting(sc, l.state, l.handles, 0, l.status);
      assert l.handles[0..] == l.handles;
    }
  }

  /** When every binding passes, send_http_get_request fetches through all
      of them in the order the handle buffer lists them, frees everything it
      allocated, and returns EFI_SUCCESS. */
  lemma SendAllPass(sc: Scripts, st: PlatformState, states: seq<PlatformState>)
    requires WellFormed(st)
    requires var l := LocateHandleBufferStep(sc, st);
      && !IsError(l.status) && |l.handles| > 0
      && PassingTrace(sc, l.handles, 0, |l.handles|, states) && states[0] == l.state
    ensures var r := SendHttpGetRequestSpec(sc, st);
      && r.status == Success && r.state.outstanding == st.outstanding
      && r.state.fetched == st.fetched + sc.locate(st.used.locate).handles
  {
    var l := LocateHandleBufferStep(sc, st);
    TraceRunsThrough(sc, l.handles, 0, states, 0, l.status);
    SendAccounting(sc, st);
  }
}
