/** The segment handler: writes each segment and then the playlist, atomically, while the power may
  * fail between any two file-system steps. */
module Publisher {
  import opened Base
  import opened Disk

  /** Where an atomic write fails, if it does.  AtRename stands for every failure between the file's
    * sync and the rename, the close included; AtDirSync for every failure after the rename. */
  datatype Fault = NoFault | AtCreate | AtWrite | AtSync | AtRename | AtDirSync

  /** The disk after the first k steps of writing c under name n: a temporary file is created,
    * partly written, fully written, synced and renamed, and the directory is synced. */
  function Stage(fs: Fs, n: Name, c: Content, k: nat): Fs
    requires k <= 6
  {
    if k == 0 then fs
    else
      var s, inode, tmp := Stage(fs, n, c, k - 1), |fs.files|, Tmp(fs.tmps);
      match k
      case 1 => CreateTmp(s)
      case 2 => Write(s, inode, Torn)
      case 3 => Write(s, inode, c)
      case 4 => SyncFile(s, inode)
      case 5 => Rename(s, tmp, n)
      case _ => SyncDir(s)
  }

  /** The steps completed before the failure. */
  function Done(fault: Fault): (k: nat)
    ensures k <= 6
  {
    match fault
    case AtCreate => 0
    case AtWrite => 2
    case AtSync => 3
    case AtRename => 4
    case AtDirSync => 5
    case NoFault => 6
  }

  function Stages(fs: Fs, n: Name, c: Content, m: nat): (r: seq<Fs>)
    requires m <= 6
    ensures |r| == m && forall k :: 0 <= k < m ==> r[k] == Stage(fs, n, c, k + 1)
  {
    if m == 0 then [] else Stages(fs, n, c, m - 1) + [Stage(fs, n, c, m)]
  }

  /** What the failure leaves: the temporary name is removed. */
  function Result(fs: Fs, n: Name, c: Content, fault: Fault): Fs
  {
    var s := Stage(fs, n, c, Done(fault));
    if fault == NoFault || fault == AtCreate then s else Unlink(s, Tmp(fs.tmps))
  }

  /** Every state the disk passes through while c is written under name n. */
  function AtomicStates(fs: Fs, n: Name, c: Content, fault: Fault): seq<Fs>
  {
    Stages(fs, n, c, Done(fault))
    + (if fault == NoFault || fault == AtCreate then [] else [Result(fs, n, c, fault)])
  }

  lemma {:induction false} StageZero(fs: Fs, n: Name, c: Content)
    ensures Stage(fs, n, c, 0) == fs
  {
  }

  lemma LastIsResult(fs: Fs, n: Name, c: Content, fault: Fault)
    ensures Last(fs, AtomicStates(fs, n, c, fault)) == Result(fs, n, c, fault)
  {
  }

  function Last(fs: Fs, states: seq<Fs>): Fs
  {
    if states == [] then fs else states[|states| - 1]
  }

  /** One call of the handler: the segment it is given and how its two writes go. */
  datatype Call = Call(data: seq<byte>, tsFault: Fault, indexFault: Fault)
  {
    predicate TsRenamed() { tsFault == NoFault || tsFault == AtDirSync }
    predicate IndexRenamed() { tsFault == NoFault && (indexFault == NoFault || indexFault == AtDirSync) }
  }

  /** The idx-th call: the name is in the playlist from the start, whatever becomes of the file. */
  function CallStates(fs: Fs, idx: nat, call: Call): seq<Fs>
  {
    var ts := AtomicStates(fs, Ts(idx), Segment(call.data), call.tsFault);
    if call.tsFault != NoFault then ts
    else ts + AtomicStates(Last(fs, ts), Index, Playlist(idx + 1), call.indexFault)
  }

  /** Every state the disk passes through over the calls, starting from a fresh directory. */
  function Trace(calls: seq<Call>): (r: seq<Fs>)
    ensures r != []
  {
    if calls == [] then [EMPTY]
    else
      var before := Trace(calls[..|calls| - 1]);
      before + CallStates(before[|before| - 1], |calls| - 1, calls[|calls| - 1])
  }

  function Segments(calls: seq<Call>): (r: seq<seq<byte>>)
    ensures |r| == |calls|
  {
    seq(|calls|, i requires 0 <= i < |calls| => calls[i].data)
  }

  // --------------------------------------------------- one atomic write

  /** Nothing but temporary names and new files differs. */
  ghost predicate Untouched(fs: Fs, s: Fs)
  {
    && fs.files <= s.files
    && forall m: Name :: !m.Tmp? ==> Survivors(s, m) == Survivors(fs, m) && Current(s, m) == Current(fs, m)
  }

  /** As Untouched, except that n may now refer to a complete file holding c, and that other names
    * may have lost their stale answers. */
  ghost predicate Evolved(fs: Fs, s: Fs, n: Name, c: Content)
  {
    && fs.files <= s.files
    && (forall m: Name :: !m.Tmp? && m != n ==>
          Survivors(s, m) <= Survivors(fs, m) + {Current(fs, m)} && Current(s, m) == Current(fs, m))
    && (forall o :: o in Survivors(s, n) ==>
          o in Survivors(fs, n) || o == Current(fs, n) || Durable(s, o, c))
  }

  lemma UntouchedEvolves(fs: Fs, s: Fs, n: Name, c: Content)
    requires Untouched(fs, s) && !n.Tmp?
    ensures Evolved(fs, s, n, c)
  {
  }

  lemma TmpStep(fs: Fs, s: Fs, t: Name, to: Option<Inode>)
    requires Untouched(fs, s) && t.Tmp?
    ensures Untouched(fs, Redirect(s, t, to))
  {
  }

  lemma FileStep(fs: Fs, s: Fs, i: Inode, f: File)
    requires Untouched(fs, s) && |fs.files| <= i < |s.files|
    ensures Untouched(fs, s.(files := s.files[i := f]))
  {
  }

  /** Up to the rename the directory is untouched, and the temporary file becomes complete and
    * synced. */
  lemma {:induction false} BeforeRename(fs: Fs, n: Name, c: Content, k: nat)
    requires k <= 4
    ensures var s := Stage(fs, n, c, k);
            && Untouched(fs, s)
            && (k >= 1 ==> |s.files| == |fs.files| + 1 && Current(s, Tmp(fs.tmps)) == Some(|fs.files|))
            && (k >= 3 ==> s.files[|fs.files|].content == c)
            && (k == 4 ==> s.files[|fs.files|].synced)
  {
    if k > 0 {
      BeforeRename(fs, n, c, k - 1);
      var s, i := Stage(fs, n, c, k - 1), |fs.files|;
      match k
      case 1 =>
        var s0 := fs.(files := fs.files + [File(Torn, false)], tmps := fs.tmps + 1);
        assert forall m: Name :: Survivors(s0, m) == Survivors(fs, m) && Current(s0, m) == Current(fs, m);
        TmpStep(fs, s0, Tmp(fs.tmps), Some(i));
      case 2 => FileStep(fs, s, i, File(Torn, false));
      case 3 => FileStep(fs, s, i, File(c, false));
      case 4 => FileStep(fs, s, i, s.files[i].(synced := true));
    }
  }

  lemma RenameEvolves(fs: Fs, s: Fs, tmp: Name, n: Name, c: Content)
    requires Untouched(fs, s) && tmp.Tmp? && !n.Tmp? && Durable(s, Current(s, tmp), c)
    ensures var r := Rename(s, tmp, n);
            Evolved(fs, r, n, c) && Durable(r, Current(r, n), c)
  {
  }

  lemma UnlinkEvolves(fs: Fs, s: Fs, tmp: Name, n: Name, c: Content)
    requires Evolved(fs, s, n, c) && tmp.Tmp? && !n.Tmp?
    ensures var r := Unlink(s, tmp);
            Evolved(fs, r, n, c) && Current(r, n) == Current(s, n) && r.files == s.files
  {
  }

  lemma SyncEvolves(fs: Fs, s: Fs, n: Name, c: Content)
    requires Evolved(fs, s, n, c) && Durable(s, Current(s, n), c)
    ensures Evolved(fs, SyncDir(s), n, c) && Durable(SyncDir(s), Current(SyncDir(s), n), c)
  {
  }

  /** Every stage of an atomic write leaves the name with an answer it had or with the complete new
    * file, and takes no answer to another name. */
  lemma {:induction false} StageEvolves(fs: Fs, n: Name, c: Content, k: nat)
    requires !n.Tmp? && k <= 6
    ensures Evolved(fs, Stage(fs, n, c, k), n, c)
    ensures k >= 5 ==> Durable(Stage(fs, n, c, k), Current(Stage(fs, n, c, k), n), c)
  {
    if k <= 4 {
      BeforeRename(fs, n, c, k);
      UntouchedEvolves(fs, Stage(fs, n, c, k), n, c);
    } else if k == 5 {
      BeforeRename(fs, n, c, 4);
      RenameEvolves(fs, Stage(fs, n, c, 4), Tmp(fs.tmps), n, c);
    } else {
      StageEvolves(fs, n, c, 5);
      SyncEvolves(fs, Stage(fs, n, c, 5), n, c);
    }
  }

  predicate Renames(fault: Fault)
  {
    fault == NoFault || fault == AtDirSync
  }

  /** An atomic write that does not get to its rename never touches the directory. */
  lemma FailedWriteUntouched(fs: Fs, n: Name, c: Content, fault: Fault)
    requires !n.Tmp? && !Renames(fault)
    ensures forall k :: 0 <= k < |AtomicStates(fs, n, c, fault)| ==> Untouched(fs, AtomicStates(fs, n, c, fault)[k])
    ensures Untouched(fs, Result(fs, n, c, fault))
  {
    var m := Done(fault);
    forall k | 0 <= k <= m ensures Untouched(fs, Stage(fs, n, c, k)) {
      BeforeRename(fs, n, c, k);
    }
    TmpStep(fs, Stage(fs, n, c, m), Tmp(fs.tmps), None);
  }

  /** However an atomic write ends. */
  lemma AtomicWriteResult(fs: Fs, n: Name, c: Content, fault: Fault)
    requires !n.Tmp?
    ensures var r := Last(fs, AtomicStates(fs, n, c, fault));
            && (fault == NoFault ==> r.stable == map[])
            && (if Renames(fault) then Durable(r, Current(r, n), c) else Untouched(fs, r))
            && Evolved(fs, r, n, c)
  {
    LastIsResult(fs, n, c, fault);
    StageEvolves(fs, n, c, Done(fault));
    if !Renames(fault) {
      FailedWriteUntouched(fs, n, c, fault);
      UntouchedEvolves(fs, Result(fs, n, c, fault), n, c);
    } else if fault == AtDirSync {
      UnlinkEvolves(fs, Stage(fs, n, c, 5), Tmp(fs.tmps), n, c);
    }
  }

  /** And at every step. */
  lemma AtomicWriteEvolves(fs: Fs, n: Name, c: Content, fault: Fault, k: nat)
    requires !n.Tmp? && k < |AtomicStates(fs, n, c, fault)|
    ensures Evolved(fs, AtomicStates(fs, n, c, fault)[k], n, c)
  {
    if k < Done(fault) {
      StageEvolves(fs, n, c, k + 1);
    } else {
      LastIsResult(fs, n, c, fault);
      AtomicWriteResult(fs, n, c, fault);
    }
  }

  // ------------------------------------------------------ runs of calls

  /** How many segments the playlist on the card lists after the calls. */
  function Listed(calls: seq<Call>): (r: nat)
    ensures r <= |calls|
  {
    if calls == [] then 0
    else if calls[|calls| - 1].IndexRenamed() then |calls|
    else Listed(calls[..|calls| - 1])
  }

  /** No playlist was put in place after a call whose segment was not. */
  ghost predicate Sound(calls: seq<Call>)
  {
    forall i, j :: 0 <= i < j < |calls| && calls[j].IndexRenamed() ==> calls[i].TsRenamed()
  }

  /** What the names refer to between two calls. */
  ghost predicate Visible(fs: Fs, calls: seq<Call>)
  {
    && (forall i :: 0 <= i < |calls| && calls[i].TsRenamed() ==>
          Durable(fs, Current(fs, Ts(i)), Segment(calls[i].data)))
    && (forall i: nat :: i >= |calls| || !calls[i].TsRenamed() ==> Current(fs, Ts(i)) == None)
    && (if Listed(calls) == 0 then Current(fs, Index) == None
        else Durable(fs, Current(fs, Index), Playlist(Listed(calls))))
  }

  lemma {:induction false} ListedAreRenamed(calls: seq<Call>, i: nat)
    requires Sound(calls) && i < Listed(calls)
    ensures calls[i].TsRenamed()
  {
    if !calls[|calls| - 1].IndexRenamed() {
      assert Sound(calls[..|calls| - 1]);
      ListedAreRenamed(calls[..|calls| - 1], i);
    }
  }

  /** Writing something else keeps what was visible. */
  lemma VisibleAfterTs(fs: Fs, calls: seq<Call>, call: Call)
    requires Visible(fs, calls)
    ensures var ts := Last(fs, AtomicStates(fs, Ts(|calls|), Segment(call.data), call.tsFault));
            !call.IndexRenamed() ==> Visible(ts, calls + [call])
    ensures var ts := Last(fs, AtomicStates(fs, Ts(|calls|), Segment(call.data), call.tsFault));
            && (forall i :: 0 <= i <= |calls| && (calls + [call])[i].TsRenamed() ==>
                  Durable(ts, Current(ts, Ts(i)), Segment((calls + [call])[i].data)))
            && (forall i: nat :: i > |calls| || !(calls + [call])[i].TsRenamed() ==> Current(ts, Ts(i)) == None)
            && Current(ts, Index) == Current(fs, Index) && fs.files <= ts.files
  {
    var n := |calls|;
    var more := calls + [call];
    assert more[..n] == calls;
    AtomicWriteResult(fs, Ts(n), Segment(call.data), call.tsFault);
    var ts := Last(fs, AtomicStates(fs, Ts(n), Segment(call.data), call.tsFault));
    forall i: nat | i != n ensures Current(ts, Ts(i)) == Current(fs, Ts(i)) {
      assert Ts(i) != Ts(n);
    }
    assert Renames(call.tsFault) == call.TsRenamed();
  }

  lemma {:induction false} VisibleAfterIndex(ts: Fs, calls: seq<Call>, more: seq<Call>, fault: Fault)
    requires |more| == |calls| + 1 && more[..|calls|] == calls
    requires more[|calls|].tsFault == NoFault && more[|calls|].indexFault == fault
    requires forall i :: 0 <= i < |more| && more[i].TsRenamed() ==>
               Durable(ts, Current(ts, Ts(i)), Segment(more[i].data))
    requires forall i: nat :: i >= |more| || !more[i].TsRenamed() ==> Current(ts, Ts(i)) == None
    requires if Listed(calls) == 0 then Current(ts, Index) == None
             else Durable(ts, Current(ts, Index), Playlist(Listed(calls)))
    ensures Visible(Last(ts, AtomicStates(ts, Index, Playlist(|more|), fault)), more)
  {
    AtomicWriteResult(ts, Index, Playlist(|more|), fault);
    var r := Last(ts, AtomicStates(ts, Index, Playlist(|more|), fault));
    forall i: nat ensures Current(r, Ts(i)) == Current(ts, Ts(i)) {
      assert Ts(i) != Index;
    }
    assert Renames(fault) == more[|calls|].IndexRenamed();
  }

  lemma VisibleAfterCall(fs: Fs, calls: seq<Call>, call: Call)
    requires Visible(fs, calls)
    ensures Visible(Last(fs, CallStates(fs, |calls|, call)), calls + [call])
  {
    VisibleAfterTs(fs, calls, call);
    hide AtomicStates;
    var n := |calls|;
    if call.tsFault == NoFault {
      var ts := Last(fs, AtomicStates(fs, Ts(n), Segment(call.data), call.tsFault));
      VisibleAfterIndex(ts, calls, calls + [call], call.indexFault);
      LastOfCall(fs, n, call);
    }
  }

  lemma LastOfCall(fs: Fs, idx: nat, call: Call)
    requires call.tsFault == NoFault
    ensures var ts := Last(fs, AtomicStates(fs, Ts(idx), Segment(call.data), call.tsFault));
            Last(fs, CallStates(fs, idx, call))
            == Last(ts, AtomicStates(ts, Index, Playlist(idx + 1), call.indexFault))
  {
  }

  lemma PublishedWhenEvolved(fs: Fs, s: Fs, n: Name, c: Content, segments: seq<seq<byte>>, count: nat)
    requires count <= |segments| && Published(fs, segments, count)
    requires forall i :: 0 <= i < count ==> Durable(fs, Current(fs, Ts(i)), Segment(segments[i]))
    requires Current(fs, Index) == None
             || exists k: nat :: k <= count && Durable(fs, Current(fs, Index), Playlist(k))
    requires Evolved(fs, s, n, c)
    requires n == Index || (n.Ts? && n.idx >= count)
    requires n == Index ==> c.Playlist? && c.count <= count
    ensures Published(s, segments, count)
  {
  }

  /** Some first segments are safe, and no surviving playlist lists more, nor more than `listed`. */
  ghost predicate PublishedAt(s: Fs, segments: seq<seq<byte>>, listed: nat)
  {
    exists count: nat :: count <= listed && count <= |segments| && Published(s, segments, count)
  }

  ghost predicate AllPublished(states: seq<Fs>, segments: seq<seq<byte>>, listed: nat)
  {
    forall k :: 0 <= k < |states| ==> PublishedAt(states[k], segments, listed)
  }

  lemma PublishedIsMonotone(s: Fs, segments: seq<seq<byte>>, more: seq<seq<byte>>, count: nat)
    requires segments <= more && count <= |segments| && Published(s, segments, count)
    ensures Published(s, more, count)
  {
  }

  /** Writing the segment: what was listed stays safe at every step. */
  lemma {:induction false} TsStatesPublish(fs: Fs, calls: seq<Call>, call: Call)
    requires Visible(fs, calls) && Sound(calls) && Published(fs, Segments(calls), Listed(calls))
    ensures var ts := AtomicStates(fs, Ts(|calls|), Segment(call.data), call.tsFault);
            var segments := Segments(calls + [call]);
            && AllPublished(ts, segments, Listed(calls))
            && Published(Last(fs, ts), segments, Listed(calls))
  {
    var n, c := Ts(|calls|), Segment(call.data);
    var ts, segments := AtomicStates(fs, n, c, call.tsFault), Segments(calls + [call]);
    assert Segments(calls) <= segments;
    PublishedIsMonotone(fs, Segments(calls), segments, Listed(calls));
    forall i | 0 <= i < Listed(calls) ensures Durable(fs, Current(fs, Ts(i)), Segment(segments[i])) {
      ListedAreRenamed(calls, i);
    }
    forall k | 0 <= k < |ts| ensures Published(ts[k], segments, Listed(calls)) {
      AtomicWriteEvolves(fs, n, c, call.tsFault, k);
      PublishedWhenEvolved(fs, ts[k], n, c, segments, Listed(calls));
    }
  }

  /** After a complete segment write everything visible is settled. */
  lemma SettledIsPublished(ts: Fs, segments: seq<seq<byte>>, count: nat, listed: nat)
    requires ts.stable == map[] && listed <= count <= |segments|
    requires forall i :: 0 <= i < count ==> Durable(ts, Current(ts, Ts(i)), Segment(segments[i]))
    requires if listed == 0 then Current(ts, Index) == None
             else Durable(ts, Current(ts, Index), Playlist(listed))
    ensures Published(ts, segments, count)
  {
  }

  /** Writing the playlist over a settled directory. */
  lemma IndexStatesPublish(ts: Fs, segments: seq<seq<byte>>, listed: nat, n: nat, fault: Fault)
    requires listed <= n < |segments| && ts.stable == map[]
    requires forall i :: 0 <= i < (if Renames(fault) then n + 1 else listed) ==>
               Durable(ts, Current(ts, Ts(i)), Segment(segments[i]))
    requires if listed == 0 then Current(ts, Index) == None
             else Durable(ts, Current(ts, Index), Playlist(listed))
    ensures var states := AtomicStates(ts, Index, Playlist(n + 1), fault);
            && AllPublished(states, segments, if Renames(fault) then n + 1 else listed)
            && Published(Last(ts, states), segments, if Renames(fault) then n + 1 else listed)
  {
    var states := AtomicStates(ts, Index, Playlist(n + 1), fault);
    var count := if Renames(fault) then n + 1 else listed;
    SettledIsPublished(ts, segments, count, listed);
    forall k | 0 <= k < |states| ensures Published(states[k], segments, count) {
      if Renames(fault) {
        AtomicWriteEvolves(ts, Index, Playlist(n + 1), fault, k);
        PublishedWhenEvolved(ts, states[k], Index, Playlist(n + 1), segments, count);
      } else {
        FailedWriteUntouched(ts, Index, Playlist(n + 1), fault);
        UntouchedEvolves(ts, states[k], Ts(n), Torn);
        PublishedWhenEvolved(ts, states[k], Ts(n), Torn, segments, count);
      }
    }
  }

  /** The segments a playlist may list are in place once the segment of this call is. */
  lemma {:induction false} TsResult(fs: Fs, calls: seq<Call>, call: Call)
    requires Visible(fs, calls) && Sound(calls + [call]) && Sound(calls) && call.tsFault == NoFault
    ensures var n := |calls|;
            var ts := Last(fs, AtomicStates(fs, Ts(n), Segment(call.data), NoFault));
            var segments := Segments(calls + [call]);
            && ts.stable == map[]
            && (forall i :: 0 <= i < (if Renames(call.indexFault) then n + 1 else Listed(calls)) ==>
                  Durable(ts, Current(ts, Ts(i)), Segment(segments[i])))
            && (if Listed(calls) == 0 then Current(ts, Index) == None
                else Durable(ts, Current(ts, Index), Playlist(Listed(calls))))
  {
    var n := |calls|;
    var more := calls + [call];
    VisibleAfterTs(fs, calls, call);
    AtomicWriteResult(fs, Ts(n), Segment(call.data), NoFault);
    var ts := Last(fs, AtomicStates(fs, Ts(n), Segment(call.data), NoFault));
    forall i | 0 <= i < (if Renames(call.indexFault) then n + 1 else Listed(calls))
      ensures Durable(ts, Current(ts, Ts(i)), Segment(Segments(more)[i]))
    {
      if i < Listed(calls) {
        ListedAreRenamed(calls, i);
      }
      assert more[n].IndexRenamed() == Renames(call.indexFault);
      assert more[i].TsRenamed();
    }
  }

  lemma {:induction false} CallPublishes(fs: Fs, calls: seq<Call>, call: Call)
    requires Visible(fs, calls) && Sound(calls + [call]) && Sound(calls)
    requires Published(fs, Segments(calls), Listed(calls))
    ensures var states := CallStates(fs, |calls|, call);
            var more := calls + [call];
            && AllPublished(states, Segments(more), Listed(more))
            && Published(Last(fs, states), Segments(more), Listed(more))
  {
    var n := |calls|;
    var more := calls + [call];
    assert more[..n] == calls;
    TsStatesPublish(fs, calls, call);
    if call.tsFault == NoFault {
      LastOfCall(fs, n, call);
      TsResult(fs, calls, call);
      var ts := Last(fs, AtomicStates(fs, Ts(n), Segment(call.data), NoFault));
      IndexStatesPublish(ts, Segments(more), Listed(calls), n, call.indexFault);
      assert Renames(call.indexFault) == call.IndexRenamed();
    }
  }

  /** A trace whose states are all published, together with what its last state shows. */
  ghost predicate TraceOk(t: seq<Fs>, calls: seq<Call>)
  {
    && t != []
    && AllPublished(t, Segments(calls), Listed(calls))
    && Published(t[|t| - 1], Segments(calls), Listed(calls))
    && Visible(t[|t| - 1], calls)
  }

  lemma TraceStep(t: seq<Fs>, before: seq<Call>, call: Call)
    requires TraceOk(t, before) && Sound(before) && Sound(before + [call])
    ensures TraceOk(t + CallStates(t[|t| - 1], |before|, call), before + [call])
  {
    var calls, fs := before + [call], t[|t| - 1];
    var states := CallStates(fs, |before|, call);
    CallPublishes(fs, before, call);
    VisibleAfterCall(fs, before, call);
    assert calls[..|before|] == before;
    TraceMonotone(t, Segments(before), Listed(before), Segments(calls), Listed(calls));
    var u := t + states;
    assert u[|u| - 1] == Last(fs, states);
    forall k | 0 <= k < |u| ensures PublishedAt(u[k], Segments(calls), Listed(calls)) {
      if k < |t| {
        assert PublishedAt(t[k], Segments(calls), Listed(calls));
      } else {
        assert PublishedAt(states[k - |t|], Segments(calls), Listed(calls));
      }
    }
  }

  lemma {:induction false} TracePublishes(calls: seq<Call>)
    requires Sound(calls)
    ensures TraceOk(Trace(calls), calls)
  {
    if calls == [] {
      assert Published(EMPTY, [], 0);
      assert PublishedAt(EMPTY, [], 0);
    } else {
      var before, call := calls[..|calls| - 1], calls[|calls| - 1];
      assert calls == before + [call];
      TracePublishes(before);
      TraceStep(Trace(before), before, call);
    }
  }

  lemma TraceMonotone(t: seq<Fs>, segments: seq<seq<byte>>, listed: nat,
                      more: seq<seq<byte>>, moreListed: nat)
    requires AllPublished(t, segments, listed) && segments <= more && listed <= moreListed
    ensures AllPublished(t, more, moreListed)
  {
    forall k | 0 <= k < |t| ensures PublishedAt(t[k], more, moreListed) {
      assert PublishedAt(t[k], segments, listed);
      var count: nat :| count <= listed && count <= |segments| && Published(t[k], segments, count);
      PublishedIsMonotone(t[k], segments, more, count);
    }
  }

  // ------------------------------------------------------ crash consistency

  ghost predicate AlwaysCrashSafe(calls: seq<Call>)
  {
    forall k :: 0 <= k < |Trace(calls)| ==> CrashSafe(Trace(calls)[k], Segments(calls))
  }

  /** What may be found after a crash at step k, when no playlist outran its segments. */
  lemma {:induction false} SoundImage(calls: seq<Call>, k: nat, img: Image)
    requires Sound(calls) && k < |Trace(calls)| && MayLeave(Trace(calls)[k], img)
    ensures Playable(img, Segments(calls))
    ensures Index in img ==> img[Index].count <= Listed(calls)
  {
    TracePublishes(calls);
    var fs := Trace(calls)[k];
    hide Trace;
    assert PublishedAt(fs, Segments(calls), Listed(calls));
    var count: nat :| count <= Listed(calls) && count <= |Segments(calls)| && Published(fs, Segments(calls), count);
    PublishedIsCrashSafe(fs, Segments(calls), count);
    if Index in img {
      var o :| o in Survivors(fs, Index) && Holds(fs, o, img[Index]);
      var m: nat :| m <= count && Durable(fs, o, Playlist(m));
    }
  }

  lemma SoundIsCrashSafe(calls: seq<Call>)
    requires Sound(calls)
    ensures AlwaysCrashSafe(calls)
  {
    forall k | 0 <= k < |Trace(calls)| ensures CrashSafe(Trace(calls)[k], Segments(calls)) {
      forall img: Image | MayLeave(Trace(calls)[k], img) ensures Playable(img, Segments(calls)) {
        SoundImage(calls, k, img);
      }
    }
  }

  /** Names refer to files that exist, and what is seen may survive. */
  ghost predicate Coherent(fs: Fs)
  {
    forall n: Name :: Current(fs, n) in Survivors(fs, n) && (n in fs.dir ==> fs.dir[n] < |fs.files|)
  }

  lemma RedirectCoherent(fs: Fs, n: Name, to: Option<Inode>)
    requires Coherent(fs) && (to.Some? ==> to.value < |fs.files|)
    ensures Coherent(Redirect(fs, n, to))
  {
  }

  lemma FilesCoherent(fs: Fs, r: Fs)
    requires Coherent(fs) && r.dir == fs.dir && |fs.files| <= |r.files|
    requires r.stable == fs.stable || r.stable == map[]
    ensures Coherent(r)
  {
  }

  lemma TmpCoherent(fs: Fs)
    requires Coherent(fs)
    ensures Coherent(CreateTmp(fs))
  {
  }

  lemma {:induction false} StageCoherent(fs: Fs, n: Name, c: Content, k: nat)
    requires Coherent(fs) && k <= 6
    ensures Coherent(Stage(fs, n, c, k))
  {
    if k > 0 {
      StageCoherent(fs, n, c, k - 1);
      var s := Stage(fs, n, c, k - 1);
      if k == 1 {
        TmpCoherent(s);
      } else if k == 5 {
        RenameCoherent(s, Tmp(fs.tmps), n);
      } else {
        FilesCoherent(s, Stage(fs, n, c, k));
      }
    }
  }

  lemma AtomicCoherent(fs: Fs, n: Name, c: Content, fault: Fault)
    requires Coherent(fs)
    ensures Coherent(Last(fs, AtomicStates(fs, n, c, fault)))
  {
    LastIsResult(fs, n, c, fault);
    StageCoherent(fs, n, c, Done(fault));
    RedirectCoherent(Stage(fs, n, c, Done(fault)), Tmp(fs.tmps), None);
  }

  lemma RenameCoherent(fs: Fs, tmp: Name, n: Name)
    requires Coherent(fs)
    ensures Coherent(Rename(fs, tmp, n))
  {
  }

  lemma CallCoherent(fs: Fs, idx: nat, call: Call)
    requires Coherent(fs)
    ensures Coherent(Last(fs, CallStates(fs, idx, call)))
  {
    AtomicCoherent(fs, Ts(idx), Segment(call.data), call.tsFault);
    if call.tsFault == NoFault {
      LastOfCall(fs, idx, call);
      var ts := Last(fs, AtomicStates(fs, Ts(idx), Segment(call.data), call.tsFault));
      AtomicCoherent(ts, Index, Playlist(idx + 1), call.indexFault);
    }
  }

  /** The disk after the calls. */
  function After(calls: seq<Call>): Fs
  {
    Trace(calls)[|Trace(calls)| - 1]
  }

  lemma AfterSnoc(before: seq<Call>, call: Call)
    ensures After(before + [call]) == Last(After(before), CallStates(After(before), |before|, call))
  {
    assert (before + [call])[..|before|] == before;
  }

  lemma CallVisible(fs: Fs, before: seq<Call>, call: Call)
    requires Visible(fs, before) && Coherent(fs)
    ensures var r := Last(fs, CallStates(fs, |before|, call));
            Visible(r, before + [call]) && Coherent(r)
  {
    VisibleAfterCall(fs, before, call);
    CallCoherent(fs, |before|, call);
  }

  lemma EmptyVisible()
    ensures Visible(After([]), []) && Coherent(After([]))
  {
  }

  /** Whatever fails, the directory shows exactly the segments whose rename was reached. */
  lemma {:induction false} TraceVisible(calls: seq<Call>)
    ensures Visible(After(calls), calls) && Coherent(After(calls))
  {
    hide *;
    if calls == [] {
      EmptyVisible();
    } else {
      var before, call := calls[..|calls| - 1], calls[|calls| - 1];
      TraceVisible(before);
      CallVisible(After(before), before, call);
      AfterSnoc(before, call);
      assert calls == before + [call];
    }
  }

  ghost predicate NoTmps(fs: Fs)
  {
    forall n :: n in fs.dir ==> !n.Tmp?
  }

  lemma {:induction false} StageTmps(fs: Fs, n: Name, c: Content, k: nat)
    requires NoTmps(fs) && !n.Tmp? && k <= 6
    ensures forall m :: m in Stage(fs, n, c, k).dir && m.Tmp? ==> m == Tmp(fs.tmps) && 1 <= k <= 4
  {
    if k > 0 {
      StageTmps(fs, n, c, k - 1);
    }
  }

  lemma AtomicTmps(fs: Fs, n: Name, c: Content, fault: Fault)
    requires NoTmps(fs) && !n.Tmp?
    ensures NoTmps(Last(fs, AtomicStates(fs, n, c, fault)))
  {
    LastIsResult(fs, n, c, fault);
    StageTmps(fs, n, c, Done(fault));
    hide Stage;
  }

  lemma CallTmps(fs: Fs, idx: nat, call: Call)
    requires NoTmps(fs)
    ensures NoTmps(Last(fs, CallStates(fs, idx, call)))
  {
    AtomicTmps(fs, Ts(idx), Segment(call.data), call.tsFault);
    var ts := Last(fs, AtomicStates(fs, Ts(idx), Segment(call.data), call.tsFault));
    hide AtomicStates, NoTmps;
    if call.tsFault == NoFault {
      LastOfCall(fs, idx, call);
      hide CallStates;
      AtomicTmps(ts, Index, Playlist(idx + 1), call.indexFault);
    }
  }

  /** Whatever fails, no temporary file's name is left after a call. */
  lemma {:induction false} NoTmpsLeft(calls: seq<Call>)
    ensures NoTmps(After(calls))
  {
    if calls != [] {
      var before, call := calls[..|calls| - 1], calls[|calls| - 1];
      NoTmpsLeft(before);
      AfterSnoc(before, call);
      assert calls == before + [call];
      hide *;
      CallTmps(After(before), |before|, call);
    }
  }

  lemma {:induction false} TracePrefix(calls: seq<Call>, n: nat)
    requires n <= |calls|
    ensures Trace(calls[..n]) <= Trace(calls)
    decreases |calls|
  {
    if n == |calls| {
      assert calls[..n] == calls;
    } else {
      assert calls[..|calls| - 1][..n] == calls[..n];
      TracePrefix(calls[..|calls| - 1], n);
    }
  }

  /** What is on the card may be what a crash leaves. */
  lemma CardMayStay(fs: Fs) returns (img: Image)
    requires Coherent(fs)
    ensures MayLeave(fs, img)
    ensures forall n: Name :: n in img <==> Current(fs, n).Some?
    ensures forall n: Name, c: Content :: Durable(fs, Current(fs, n), c) ==> img[n] == c
  {
    img := map n | n in fs.dir :: (if fs.dir[n] < |fs.files| then fs.files[fs.dir[n]].content else Torn);
    forall n | n in img ensures exists o :: o in Survivors(fs, n) && Holds(fs, o, img[n]) {
      assert Current(fs, n) in Survivors(fs, n);
      assert Holds(fs, Current(fs, n), img[n]);
    }
    forall n | n !in img ensures None in Survivors(fs, n) {
      assert Current(fs, n) in Survivors(fs, n);
    }
  }

  lemma MissingSegmentIsUnsafe(fs: Fs, segments: seq<seq<byte>>, count: nat, i: nat)
    requires Coherent(fs) && Durable(fs, Current(fs, Index), Playlist(count))
    requires i < count && Current(fs, Ts(i)) == None
    ensures !CrashSafe(fs, segments)
  {
    var img := CardMayStay(fs);
    assert !Playable(img, segments);
  }

  /** Crash consistency, exactly: every crash at every step leaves only complete segments listed,
    * if and only if no playlist is put in place after a call whose segment was not. */
  lemma CrashSafeExactly(calls: seq<Call>)
    ensures AlwaysCrashSafe(calls) <==> Sound(calls)
  {
    if Sound(calls) {
      SoundIsCrashSafe(calls);
    } else {
      var i, j :| 0 <= i < j < |calls| && calls[j].IndexRenamed() && !calls[i].TsRenamed();
      LostSegment(calls, i, j);
    }
  }

  lemma LostAt(fs: Fs, calls: seq<Call>, i: nat, segments: seq<seq<byte>>)
    requires Visible(fs, calls) && Coherent(fs)
    requires i < |calls| && calls[|calls| - 1].IndexRenamed() && !calls[i].TsRenamed()
    ensures !CrashSafe(fs, segments)
  {
    ListedLast(calls);
    MissingSegmentIsUnsafe(fs, segments, |calls|, i);
  }

  lemma LostSegment(calls: seq<Call>, i: nat, j: nat)
    requires i < j < |calls| && calls[j].IndexRenamed() && !calls[i].TsRenamed()
    ensures !AlwaysCrashSafe(calls)
  {
    hide CallStates, Visible, Coherent, CrashSafe, Trace;
    var p := calls[..j + 1];
    TraceVisible(p);
    LostAt(After(p), p, i, Segments(calls));
    TracePrefix(calls, j + 1);
    var k := |Trace(p)| - 1;
    assert Trace(calls)[k] == After(p);
    assert !CrashSafe(Trace(calls)[k], Segments(calls));
  }

  lemma {:induction false} ListedLast(calls: seq<Call>)
    requires calls != [] && calls[|calls| - 1].IndexRenamed()
    ensures Listed(calls) == |calls|
  {
  }

  // ---------------------------------------------------------- durability

  /** Whatever a crash brings back as the playlist is complete and lists at least n segments. */
  ghost predicate Floor(fs: Fs, n: nat)
  {
    && Coherent(fs)
    && forall o :: o in Survivors(fs, Index) ==> exists m: nat :: n <= m && Durable(fs, o, Playlist(m))
  }

  lemma EvolvedKeepsFloor(fs: Fs, s: Fs, name: Name, c: Content, n: nat)
    requires Floor(fs, n) && Coherent(s) && Evolved(fs, s, name, c) && !name.Tmp?
    requires name == Index ==> c.Playlist? && n <= c.count
    ensures Floor(s, n)
  {
    assert Current(fs, Index) in Survivors(fs, Index);
    forall o | o in Survivors(s, Index) ensures exists m: nat :: n <= m && Durable(s, o, Playlist(m)) {
      if o in Survivors(fs, Index) {
        var m: nat :| n <= m && Durable(fs, o, Playlist(m));
        assert Durable(s, o, Playlist(m));
      } else {
        assert name == Index && Durable(s, o, Playlist(c.count));
      }
    }
  }

  lemma AtomicKeepsFloor(fs: Fs, name: Name, c: Content, fault: Fault, k: nat, n: nat)
    requires Floor(fs, n) && !name.Tmp? && k < |AtomicStates(fs, name, c, fault)|
    requires name == Index ==> c.Playlist? && n <= c.count
    ensures Floor(AtomicStates(fs, name, c, fault)[k], n)
  {
    AtomicWriteEvolves(fs, name, c, fault, k);
    if k < Done(fault) {
      StageCoherent(fs, name, c, k + 1);
    } else {
      LastIsResult(fs, name, c, fault);
      AtomicCoherent(fs, name, c, fault);
    }
    EvolvedKeepsFloor(fs, AtomicStates(fs, name, c, fault)[k], name, c, n);
  }

  lemma LastKeepsFloor(fs: Fs, states: seq<Fs>, n: nat)
    requires Floor(fs, n) && forall k :: 0 <= k < |states| ==> Floor(states[k], n)
    ensures Floor(Last(fs, states), n)
  {
  }

  lemma CallKeepsFloor(fs: Fs, idx: nat, call: Call, n: nat)
    requires Floor(fs, n) && n <= idx + 1
    ensures forall k :: 0 <= k < |CallStates(fs, idx, call)| ==> Floor(CallStates(fs, idx, call)[k], n)
  {
    hide AtomicStates, Floor;
    var ts := AtomicStates(fs, Ts(idx), Segment(call.data), call.tsFault);
    forall k | 0 <= k < |ts| ensures Floor(ts[k], n) {
      AtomicKeepsFloor(fs, Ts(idx), Segment(call.data), call.tsFault, k, n);
    }
    if call.tsFault == NoFault {
      LastKeepsFloor(fs, ts, n);
      var mid := Last(fs, ts);
      var more := AtomicStates(mid, Index, Playlist(idx + 1), call.indexFault);
      forall k | 0 <= k < |more| ensures Floor(more[k], n) {
        AtomicKeepsFloor(mid, Index, Playlist(idx + 1), call.indexFault, k, n);
      }
    }
  }

  predicate Succeeds(call: Call)
  {
    call.tsFault == NoFault && call.indexFault == NoFault
  }

  /** A call that returned 0 has synced the directory, with a playlist that lists its segment. */
  lemma SuccessGivesFloor(before: seq<Call>, call: Call)
    requires Succeeds(call)
    ensures Floor(After(before + [call]), |before| + 1)
  {
    var calls, fs := before + [call], After(before);
    TraceVisible(calls);
    ListedLast(calls);
    AfterSnoc(before, call);
    LastOfCall(fs, |before|, call);
    var ts := Last(fs, AtomicStates(fs, Ts(|before|), Segment(call.data), call.tsFault));
    AtomicWriteResult(ts, Index, Playlist(|before| + 1), NoFault);
    hide CallStates, AtomicStates, Trace;
    assert After(calls).stable == map[];
    assert Durable(After(calls), Current(After(calls), Index), Playlist(|before| + 1));
  }

  lemma {:induction false} TraceSnoc(before: seq<Call>, call: Call)
    ensures Trace(before + [call]) == Trace(before) + CallStates(After(before), |before|, call)
    ensures After(before) == Trace(before)[|Trace(before)| - 1]
    ensures After(before + [call]) == Trace(before + [call])[|Trace(before + [call])| - 1]
  {
    hide CallStates;
    assert (before + [call])[..|before|] == before;
  }

  lemma {:induction false} CallAfterFloor(before: seq<Call>, call: Call, n: nat, k: nat)
    requires Floor(After(before), n) && n <= |before| + 1
    requires |Trace(before)| <= k < |Trace(before + [call])|
    ensures Floor(Trace(before + [call])[k], n)
  {
    TraceSnoc(before, call);
    hide *;
    CallKeepsFloor(After(before), |before|, call, n);
    var states := CallStates(After(before), |before|, call);
    assert Trace(before + [call])[k] == states[k - |Trace(before)|];
  }

  /** Once the n-th call has returned 0, every later state of the disk, whatever fails from there on,
    * keeps the floor. */
  lemma {:induction false} SuccessLasts(calls: seq<Call>, n: nat, k: nat)
    requires 1 <= n <= |calls| && Succeeds(calls[n - 1])
    requires |Trace(calls[..n])| - 1 <= k < |Trace(calls)|
    ensures Floor(Trace(calls)[k], n)
    decreases |calls|
  {
    hide *;
    var before, call := calls[..|calls| - 1], calls[|calls| - 1];
    assert calls == before + [call];
    TraceSnoc(before, call);
    if n == |calls| {
      assert calls[..n] == calls;
      SuccessGivesFloor(before, call);
    } else {
      assert before[..n] == calls[..n];
      TracePrefix(before, n);
      if k < |Trace(before)| {
        SuccessLasts(before, n, k);
        assert Trace(calls)[k] == Trace(before)[k];
      } else {
        SuccessLasts(before, n, |Trace(before)| - 1);
        CallAfterFloor(before, call, n, k);
      }
    }
  }

  /** Durability: once the n-th call has returned 0, whatever fails later and whenever the power goes,
    * a playlist is found that lists at least n segments. */
  lemma {:induction false} FinishedCallsSurvive(calls: seq<Call>, n: nat, k: nat, img: Image)
    requires 1 <= n <= |calls| && Succeeds(calls[n - 1])
    requires |Trace(calls[..n])| - 1 <= k < |Trace(calls)| && MayLeave(Trace(calls)[k], img)
    ensures Index in img && img[Index].Playlist? && n <= img[Index].count
  {
    SuccessLasts(calls, n, k);
    var fs := Trace(calls)[k];
    hide Trace;
    assert None !in Survivors(fs, Index);
    var o :| o in Survivors(fs, Index) && Holds(fs, o, img[Index]);
    var m: nat :| n <= m && Durable(fs, o, Playlist(m));
  }

  /** Without I/O errors nothing published is lost: after n calls, a crash at any later step leaves a
    * playlist with at least those n segments, and all that it lists are there and complete. */
  lemma {:induction false} NoErrorsNoLoss(calls: seq<Call>, n: nat, k: nat, img: Image)
    requires forall i :: 0 <= i < |calls| ==> Succeeds(calls[i])
    requires n <= |calls| && |Trace(calls[..n])| - 1 <= k < |Trace(calls)| && MayLeave(Trace(calls)[k], img)
    ensures AlwaysCrashSafe(calls) && Playable(img, Segments(calls))
    ensures n > 0 ==> Index in img && n <= img[Index].count
    ensures forall i :: 0 <= i < n ==> Ts(i) in img && img[Ts(i)] == Segment(calls[i].data)
  {
    SoundIsCrashSafe(calls);
    assert CrashSafe(Trace(calls)[k], Segments(calls));
    if n > 0 {
      FinishedCallsSurvive(calls, n, k, img);
    }
    hide Trace, MayLeave, AlwaysCrashSafe, CrashSafe;
  }

  // --------------------------------------------------------- the handler

  /** An atomic write under way: what is written where, and the disk and trace it began with. */
  datatype Job = Job(fs: Fs, name: Name, content: Content, trace: seq<Fs>)

  /** The part of the writer's state that hls_cb works on.  `trace` records every state the disk
    * passes through. */
  class Publisher {
    var fs: Fs
    var tsIdx: nat
    var listed: nat           // entries of the playlist in memory
    var tsSinceCleanup: nat
    ghost var trace: seq<Fs>

    ghost predicate Valid()
      reads this
    {
      listed == tsIdx && trace != [] && trace[|trace| - 1] == fs
    }

    constructor ()
      ensures Valid() && fs == EMPTY && tsIdx == 0 && tsSinceCleanup == 0 && trace == [EMPTY]
    {
      fs, tsIdx, listed, tsSinceCleanup, trace := EMPTY, 0, 0, 0, [EMPTY];
    }

    /** The disk has taken the first k steps of the atomic write `job`. */
    ghost predicate At(job: Job, k: nat)
      reads this
    {
      && k <= 6 && fs == Stage(job.fs, job.name, job.content, k)
      && trace == job.trace + Stages(job.fs, job.name, job.content, k)
      && (k > 0 ==> trace[|trace| - 1] == fs)
    }

    /** mkstemp */
    method MakeTemp(ghost job: Job)
      requires At(job, 0)
      modifies this`fs, this`trace
      ensures At(job, 1)
    {
      fs := CreateTmp(fs);
      trace := trace + [fs];
    }

    /** Part of write_all */
    method WritePart(inode: Inode, ghost job: Job)
      requires At(job, 1) && inode == |job.fs.files|
      modifies this`fs, this`trace
      ensures At(job, 2)
    {
      fs := Write(fs, inode, Torn);
      trace := trace + [fs];
    }

    /** The rest of write_all */
    method WriteRest(inode: Inode, c: Content, ghost job: Job)
      requires At(job, 2) && inode == |job.fs.files| && c == job.content
      modifies this`fs, this`trace
      ensures At(job, 3)
    {
      fs := Write(fs, inode, c);
      trace := trace + [fs];
    }

    /** fsync of the file */
    method Fsync(inode: Inode, ghost job: Job)
      requires At(job, 3) && inode == |job.fs.files|
      modifies this`fs, this`trace
      ensures At(job, 4)
    {
      fs := SyncFile(fs, inode);
      trace := trace + [fs];
    }

    /** rename */
    method Move(tmp: Name, n: Name, ghost job: Job)
      requires At(job, 4) && tmp == Tmp(job.fs.tmps) && n == job.name
      modifies this`fs, this`trace
      ensures At(job, 5)
    {
      fs := Rename(fs, tmp, n);
      trace := trace + [fs];
    }

    /** fsync of the directory */
    method FsyncParent(ghost job: Job)
      requires At(job, 5)
      modifies this`fs, this`trace
      ensures At(job, 6)
    {
      fs := SyncDir(fs);
      trace := trace + [fs];
    }

    /** write_file_atomic; `fault` is where it fails, if it does. */
    method WriteFileAtomic(n: Name, c: Content, fault: Fault) returns (rc: int)
      requires Valid()
      modifies this`fs, this`trace
      ensures Valid()
      ensures trace == old(trace) + AtomicStates(old(fs), n, c, fault)
      ensures rc == 0 <==> fault == NoFault
    {
      hide Stage;
      ghost var job := Job(fs, n, c, trace);
      var tmp, inode := Tmp(fs.tmps), |fs.files|;
      if fault == AtCreate {
        return -1;
      }
      StageZero(fs, n, c);
      MakeTemp(job);
      WritePart(inode, job);
      rc := 0;
      if fault == AtWrite {
        rc := -1;
      } else {
        WriteRest(inode, c, job);
      }
      if rc == 0 {
        if fault == AtSync {
          rc := -1;
        } else {
          Fsync(inode, job);
        }
      }
      if rc == 0 {
        if fault == AtRename {
          rc := -1;
        } else {
          Move(tmp, n, job);
        }
      }
      if rc == 0 {
        if fault == AtDirSync {
          rc := -1;
        } else {
          FsyncParent(job);
        }
      }
      if rc != 0 {
        fs := Unlink(fs, tmp);
        trace := trace + [fs];
        return -1;
      }
    }

    /** hls_cb: the index and the playlist entry are taken before anything is written. */
    method HlsCb(call: Call) returns (rc: int)
      requires Valid()
      modifies this
      ensures Valid() && tsIdx == old(tsIdx) + 1
      ensures trace == old(trace) + CallStates(old(fs), old(tsIdx), call)
      ensures rc == 0 <==> call.tsFault == NoFault && call.indexFault == NoFault
      ensures tsSinceCleanup == old(tsSinceCleanup) + (if rc == 0 then 1 else 0)
    {
      var ts := Ts(tsIdx);
      tsIdx := tsIdx + 1;
      listed := listed + 1;
      rc := WriteFileAtomic(ts, Segment(call.data), call.tsFault);
      if rc != 0 {
        return -1;
      }
      rc := WriteFileAtomic(Index, Playlist(listed), call.indexFault);
      if rc != 0 {
        return -1;
      }
      tsSinceCleanup := tsSinceCleanup + 1;
    }
  }
}
