/** The exit node's agent as an object: the kernel set it drives, its cursor and
    its fail-closed clock (agent/agent.go, agent/usage.go). Each method runs
    without interleaving; `AgentSync` covers the interleavings. */
module Agent {
  import opened AuthzLog
  import opened AgentSync
  import G = GraceClock
  import M = Metering

  /** The add and the remove that turn `current` into `desired`. */
  method DiffAuthorized(current: set<Addr>, desired: set<Addr>) returns (add: set<Addr>, del: set<Addr>)
    ensures add == desired - current && del == current - desired
    ensures (current + add) - del == desired
  {
    add, del := {}, {};
    var todo := desired;
    while todo != {}
      invariant todo <= desired && forall x :: x in add <==> x in desired && x !in todo && x !in current
      decreases |todo|
    {
      var a :| a in todo;
      todo := todo - {a};
      if a !in current {
        add := add + {a};
      }
    }
    todo := current;
    while todo != {}
      invariant todo <= current && forall x :: x in del <==> x in current && x !in todo && x !in desired
      decreases |todo|
    {
      var a :| a in todo;
      todo := todo - {a};
      if a !in desired {
        del := del + {a};
      }
    }
  }

  /** Which of the calls out succeed: listing the kernel set, a kernel batch, the writes
      of the runtime for the cursor and for the clock, and reading and deleting
      accounting elements. */
  datatype Io = Io(listOk: bool, nftOk: bool, writeOk: bool, markOk: bool, readOk: bool, deleteOk: bool)

  /** How applying a response ended: held back, broken off by a failed call, or done. */
  datatype Outcome = Held(verdict: Verdict) | Broken | Done

  /** What a pull came back with. */
  datatype Answer = Unreachable | NothingNew | Body(resp: Response)

  class Agent {
    var kernel: set<Addr>
    /** The accounting elements. */
    var acct: M.Counters
    /** The revision in memory and in the runtime file. */
    var cursor: nat
    var disk: nat
    /** The sync loop's own variables and the resync request of a heartbeat. */
    var forceFull: bool
    var lastFull: Time
    var wantResync: bool
    var clock: G.Clock
    var graceMinutes: nat
    const massRevokeMin: nat
    const allowMassRevoke: bool
    const failClosedAfterGrace: bool
    const fullSyncEvery: Time

    constructor (kernel: set<Addr>, cursor: nat, saved: Option<Time>, massRevokeMin: nat, allow: bool, failClosed: bool, every: Time)
      ensures this.kernel == kernel && this.cursor == disk == cursor && acct == map[] && graceMinutes == 240
      ensures clock == G.Clock(0, saved, saved, None) && forceFull && !wantResync && fullSyncEvery == every
      ensures this.massRevokeMin == massRevokeMin && allowMassRevoke == allow && failClosedAfterGrace == failClosed
    {
      this.kernel, this.cursor, disk, this.clock, graceMinutes := kernel, cursor, cursor, G.Clock(0, saved, saved, None), 240;
      acct := map[];
      this.massRevokeMin, allowMassRevoke, failClosedAfterGrace, fullSyncEvery := massRevokeMin, allow, failClosed, every;
      forceFull, lastFull, wantResync := true, 0, false;
    }

    /** The members of `del` that are live: nft fails a batch that names others. */
    method PresentOnly(del: set<Addr>) returns (out: set<Addr>)
      ensures out == del * kernel
    {
      out := {};
      var todo := del;
      while todo != {}
        invariant todo <= del && forall x :: x in out <==> x in del && x !in todo && x in kernel
        decreases |todo|
      {
        var a :| a in todo;
        todo := todo - {a};
        if a in kernel {
          out := out + {a};
        }
      }
    }

    method ApplyAuthorized(add: set<Addr>, del: set<Addr>, nftOk: bool) returns (ok: bool)
      modifies `kernel
      ensures ok <==> nftOk && Kernel(old(kernel), add, del).Some?
      ensures kernel == if ok then (old(kernel) + add) - del else old(kernel)
    {
      ok := nftOk && del <= kernel + add;
      if ok {
        kernel := (kernel + add) - del;
      }
    }

    /** Applies a response as `Decide` says. An accepted full set becomes the
        kernel set; a delta removes only what is live, so its batch cannot fail
        for a member that is already gone. A response held back, a failed listing
        and a failed batch change nothing; a failed write of the cursor leaves the
        batch and the cursor in memory applied. */
    method ApplyAuthz(resp: Response, io: Io) returns (out: Outcome)
      modifies `kernel, `cursor, `disk, `clock
      ensures var v := Decide(resp, old(kernel), old(cursor), massRevokeMin, allowMassRevoke);
              var listed := io.listOk || (resp.Partial? && resp.del == {});
              var applied := listed && v.Batch? && io.nftOk;
              && out == (if v.Regression? || (listed && v.MassRevoke?) then Held(v) else if applied && io.writeOk then Done else Broken)
              && kernel == (if applied then (old(kernel) + v.add) - v.del else old(kernel))
              && cursor == (if applied then resp.rev else old(cursor))
              && disk == (if applied && io.writeOk then resp.rev else old(disk))
              && clock == (if applied && io.writeOk then G.Save(old(clock)) else old(clock))
              && (applied && resp.Full? ==> kernel == resp.members)
              && (applied && resp.Partial? && resp.add !! resp.del ==> kernel == (old(kernel) + resp.add) - resp.del)
      ensures resp.Full? && !resp.force && !allowMassRevoke ==>
                var cut := |old(kernel) - kernel|; cut <= massRevokeMin || 2 * cut <= |old(kernel)|
      ensures resp.Full? && io.listOk ==>
                var cut := |old(kernel) - resp.members|;
                if !resp.force && !allowMassRevoke && cut > massRevokeMin && 2 * cut > |old(kernel)|
                then out == Held(MassRevoke) && kernel == old(kernel) && cursor == old(cursor)
                else io.nftOk ==> kernel == resp.members && cursor == resp.rev
      ensures resp.Partial? ==>
                if resp.rev < old(cursor) then out == Held(Regression) && kernel == old(kernel) && cursor == old(cursor)
                else (io.listOk || resp.del == {}) && io.nftOk ==>
                  kernel == (old(kernel) + resp.add) - (resp.del * old(kernel)) && cursor == resp.rev
    {
      var add, del;
      if resp.Full? {
        if !io.listOk { return Broken; }
        add, del := DiffAuthorized(kernel, resp.members);
        if !resp.force && !allowMassRevoke && IsMassRevoke(|del|, |kernel|, massRevokeMin) {
          return Held(MassRevoke);
        }
      } else {
        if resp.rev < cursor {
          return Held(Regression);
        }
        add := resp.add;
        if resp.del != {} && !io.listOk { return Broken; }
        del := PresentOnly(resp.del);
      }
      var ok := ApplyAuthorized(add, del, io.nftOk);
      if !ok { return Broken; }
      cursor := resp.rev;
      if !io.writeOk { return Broken; }
      WriteRuntime();
      return Done;
    }

    /** The runtime file is written whole. */
    method WriteRuntime()
      modifies `disk, `clock
      ensures disk == cursor && clock == G.Save(old(clock))
    {
      disk, clock := cursor, clock.(saved := clock.stamp);
    }

    /** Drops the accounting elements of the addresses, naming only existing ones. */
    method GcAcct(addrs: set<Addr>, io: Io)
      modifies `acct
      ensures acct == if io.readOk && io.deleteOk then map k | k in old(acct) && k.addr !in addrs :: old(acct)[k] else old(acct)
    {
      if !io.readOk { return; }
      var keys: set<M.Key> := {};
      var todo := acct.Keys;
      while todo != {}
        invariant todo <= acct.Keys && forall k :: k in keys <==> k in acct && k !in todo && k.addr in addrs
        decreases |todo|
      {
        var k :| k in todo;
        todo := todo - {k};
        if k.addr in addrs {
          keys := keys + {k};
        }
      }
      if io.deleteOk {
        acct := acct - keys;
      }
    }

    /** Inline revocations of a usage ack: exactly the revoked addresses leave the
        kernel set, and with them their accounting elements. */
    method ApplyRevocations(revoke: set<Addr>, io: Io)
      modifies `kernel, `acct
      ensures var done := io.listOk && io.nftOk;
              && kernel == (if done then old(kernel) - revoke else old(kernel))
              && acct == (if done && io.readOk && io.deleteOk then map k | k in old(acct) && k.addr !in revoke :: old(acct)[k] else old(acct))
    {
      if revoke == {} {
        assert acct == map k | k in old(acct) && k.addr !in revoke :: old(acct)[k];
        return;
      }
      if !io.listOk { return; }
      var del := PresentOnly(revoke);
      var ok := ApplyAuthorized({}, del, io.nftOk);
      if ok {
        GcAcct(revoke, io);
      }
    }

    method InitLastAuthzOK(now: Time)
      requires clock.stamp == clock.saved
      modifies `clock
      ensures clock == G.Init(old(clock), now)
    {
      var last := now;
      if clock.stamp.Some? {
        last := clock.stamp.value;
      }
      clock := clock.(lastOk := last, started := Some(now));
    }

    /** The loop's time always moves; the runtime's at most once a minute, and the file
        follows if the write succeeds. */
    method MarkAuthzOK(now: Time, written: bool)
      modifies `clock, `disk
      ensures clock == G.Mark(old(clock), now, written)
      ensures disk == if written && clock.stamp != old(clock).stamp then cursor else old(disk)
    {
      var stale := clock.stamp.None? || now - clock.stamp.value >= G.MINUTE;
      clock := clock.(lastOk := now);
      if stale {
        clock := clock.(stamp := Some(now));
        if written {
          WriteRuntime();
        }
      }
    }

    /** Empties the kernel set exactly when the clock says so. */
    method GraceCheck(now: Time, io: Io) returns (flushed: bool)
      modifies `kernel
      ensures flushed <==> G.MustFlush(clock, now, graceMinutes, failClosedAfterGrace) && old(kernel) != {} && io.listOk && io.nftOk
      ensures kernel == if flushed then {} else old(kernel)
    {
      var over := now - clock.lastOk > G.Grace(graceMinutes);
      var settled := clock.started.None? || now - clock.started.value >= G.StartupGrace(graceMinutes);
      if !over || !failClosedAfterGrace || !settled {
        return false;
      }
      if !io.listOk || kernel == {} {
        return false;
      }
      flushed := ApplyAuthorized({}, kernel, io.nftOk);
    }

    /** A full pull is owed: demanded earlier, by a heartbeat, or by the schedule. */
    predicate FullDue(now: Time)
      reads this
    {
      forceFull || wantResync || (fullSyncEvery > 0 && now - lastFull >= fullSyncEvery)
    }

    /** One turn of the sync loop. The full pull stays owed until one is answered
        without a failure, or held back with a cursor to go on from; a revision that
        went backwards makes it owed again. The fail-closed clock restarts on every
        answer except one that broke off, and only an unreachable backend can lead
        to a flush. */
    method SyncOnce(backend: (nat, bool) -> Answer, now: Time, io: Io)
      modifies this
      ensures !wantResync && graceMinutes == old(graceMinutes) && acct == old(acct)
      ensures var full := old(FullDue(now));
              match backend(if full then 0 else old(cursor), full) {
                case Unreachable =>
                  && forceFull == full && lastFull == old(lastFull) && cursor == old(cursor) && clock == old(clock)
                  && kernel == (if io.listOk && io.nftOk && G.MustFlush(old(clock), now, graceMinutes, failClosedAfterGrace) then {} else old(kernel))
                case NothingNew =>
                  && !forceFull && lastFull == (if full then now else old(lastFull))
                  && cursor == old(cursor) && kernel == old(kernel) && clock == G.Mark(old(clock), now, io.markOk)
                case Body(resp) =>
                  var v := Decide(resp, old(kernel), old(cursor), massRevokeMin, allowMassRevoke);
                  var listed := io.listOk || (resp.Partial? && resp.del == {});
                  var applied := listed && v.Batch? && io.nftOk;
                  var held := v.Regression? || (listed && v.MassRevoke?);
                  var dropped := full && ((applied && io.writeOk) || (held && v.MassRevoke? && old(cursor) > 0));
                  && cursor == (if applied then resp.rev else old(cursor))
                  && kernel == (if applied then (old(kernel) + v.add) - v.del else old(kernel))
                  && forceFull == (v.Regression? || (full && !dropped))
                  && lastFull == (if dropped then now else old(lastFull))
                  && clock == (if held then G.Mark(old(clock), now, io.markOk)
                            else if applied && io.writeOk then G.Mark(G.Save(old(clock)), now, io.markOk) else old(clock))
              }
    {
      if wantResync {
        wantResync, forceFull := false, true;
      }
      if !forceFull && fullSyncEvery > 0 && now - lastFull >= fullSyncEvery {
        forceFull := true;
      }
      var persisted := cursor;
      var answer := backend(if forceFull then 0 else persisted, forceFull);
      match answer {
        case Unreachable =>
          var _ := GraceCheck(now, io);
        case NothingNew =>
          AfterApply(Done, persisted, now, io);
        case Body(resp) =>
          TakeBody(resp, now, io);
      }
    }

    method TakeBody(resp: Response, now: Time, io: Io)
      modifies `kernel, `cursor, `disk, `forceFull, `lastFull, `clock
      ensures var v := Decide(resp, old(kernel), old(cursor), massRevokeMin, allowMassRevoke);
              var listed := io.listOk || (resp.Partial? && resp.del == {});
              var applied := listed && v.Batch? && io.nftOk;
              var held := v.Regression? || (listed && v.MassRevoke?);
              var dropped := old(forceFull) && ((applied && io.writeOk) || (held && v.MassRevoke? && old(cursor) > 0));
              && cursor == (if applied then resp.rev else old(cursor))
              && kernel == (if applied then (old(kernel) + v.add) - v.del else old(kernel))
              && forceFull == (v.Regression? || (old(forceFull) && !dropped))
              && lastFull == (if dropped then now else old(lastFull))
              && clock == (if held then G.Mark(old(clock), now, io.markOk)
                            else if applied && io.writeOk then G.Mark(G.Save(old(clock)), now, io.markOk) else old(clock))
    {
      var persisted := cursor;
      var out := ApplyAuthz(resp, io);
      AfterApply(out, persisted, now, io);
    }

    /** What the loop does with the outcome. */
    method AfterApply(out: Outcome, persisted: nat, now: Time, io: Io)
      requires out.Held? ==> !out.verdict.Batch?
      modifies `forceFull, `lastFull, `clock, `disk
      ensures var dropped := old(forceFull) && (out.Done? || (out.Held? && out.verdict.MassRevoke? && persisted > 0));
              && forceFull == ((out.Held? && out.verdict.Regression?) || (old(forceFull) && !dropped))
              && lastFull == (if dropped then now else old(lastFull))
      ensures clock == if out.Broken? then old(clock) else G.Mark(old(clock), now, io.markOk)
    {
      match out {
        case Broken =>
        case Held(v) =>
          MarkAuthzOK(now, io.markOk);
          if v.Regression? {
            forceFull := true;
          } else if forceFull && persisted > 0 {
            forceFull, lastFull := false, now;
          }
        case Done =>
          if forceFull {
            forceFull, lastFull := false, now;
          }
          MarkAuthzOK(now, io.markOk);
      }
    }
  }
}
