/** Pacing a guest to its own refresh rate: every presented frame waits for the next point of a grid of deadlines. */
module VsyncPacing {

  const NANOSECONDS_PER_SECOND := 1_000_000_000
  const FOLLOWS_HOST := 0

  /** One call: when it was made, when it returned, the deadline it left behind, and its frame time. */
  datatype Frame = Frame(now: int, ret: int, deadline: int, frameNs: int)

  predicate Resets(deadline: int, f: Frame) {
    deadline == 0 || f.now - deadline >= f.frameNs
  }

  /** What one call does, given the deadline the previous one left. */
  predicate Paced(deadline: int, f: Frame) {
    if Resets(deadline, f) then
      f.deadline == f.now + f.frameNs && f.ret == f.now
    else
      f.deadline == deadline + f.frameNs && if f.now < deadline then f.ret >= deadline else f.ret == f.now
  }

  function DeadlineBefore(fs: seq<Frame>, n: nat): int
    requires n <= |fs|
  {
    if n == 0 then 0 else fs[n - 1].deadline
  }

  /** Frames presented one after the other, on a clock that has left zero behind; the frame time may change between them. */
  ghost predicate History(fs: seq<Frame>) {
    forall n | 0 <= n < |fs| ::
      && fs[n].now > 0 && fs[n].frameNs > 0
      && (n > 0 ==> fs[n].now >= fs[n - 1].ret)
      && Paced(DeadlineBefore(fs, n), fs[n])
  }

  function FrameTime(swapInterval: nat, refreshHz: nat): nat
    requires refreshHz > 0
  {
    NANOSECONDS_PER_SECOND * swapInterval / refreshHz
  }

  /** As many frames as the rate has in a second take a second an interval, less what whole nanoseconds cannot show. */
  lemma SecondOfFrames(swapInterval: nat, refreshHz: nat)
    requires refreshHz > 0
    ensures FrameTime(swapInterval, refreshHz) * refreshHz <= swapInterval * 1_000_000_000
    ensures swapInterval * 1_000_000_000 < FrameTime(swapInterval, refreshHz) * refreshHz + refreshHz
  {
    var x := NANOSECONDS_PER_SECOND * swapInterval;
    assert x == refreshHz * (x / refreshHz) + x % refreshHz;
  }

  /** The frame times from frame m up to, but not with, frame n. */
  function Times(fs: seq<Frame>, m: nat, n: nat): int
    requires m <= n <= |fs|
    decreases n - m
  {
    if m == n then 0 else Times(fs, m, n - 1) + fs[n - 1].frameNs
  }

  lemma {:induction false} ConstantTimes(fs: seq<Frame>, m: nat, n: nat, frameNs: int)
    requires m <= n <= |fs| && forall k | m <= k < n :: fs[k].frameNs == frameNs
    ensures Times(fs, m, n) == (n - m) * frameNs
    decreases n - m
  {
    if m < n {
      ConstantTimes(fs, m, n - 1, frameNs);
      assert (n - m) * frameNs == (n - 1 - m) * frameNs + frameNs;
    }
  }

  class Pacer {
    /** 0 while pacing is off. */
    var deadline: int
    /** The frames since pacing was last switched on. */
    ghost var frames: seq<Frame>

    ghost predicate Valid()
      reads this
    {
      History(frames) && deadline == DeadlineBefore(frames, |frames|)
    }

    constructor ()
      ensures Valid() && frames == [] && deadline == 0
    {
      deadline, frames := 0, [];
    }

    /** MGLPaceToGuestRefresh. wake is when a sleep until the deadline ends: not before it, by how much later is up
        to the host. */
    method Pace(swapInterval: nat, refreshHz: nat, now: int, wake: int) returns (ret: int)
      requires Valid() && now > 0
      requires swapInterval > 0 && refreshHz != FOLLOWS_HOST ==> FrameTime(swapInterval, refreshHz) > 0
      requires frames != [] ==> now >= frames[|frames| - 1].ret
      requires now < deadline ==> wake >= deadline
      modifies this
      ensures Valid()
      ensures swapInterval == 0 || refreshHz == FOLLOWS_HOST ==> deadline == 0 && frames == [] && ret == now
      ensures swapInterval > 0 && refreshHz != FOLLOWS_HOST ==>
                var f := Frame(now, ret, deadline, FrameTime(swapInterval, refreshHz));
                && frames == old(frames) + [f] && Paced(old(deadline), f)
                && ret == if now < old(deadline) then wake else now
    {
      hide FrameTime, History;
      if swapInterval == 0 || refreshHz == FOLLOWS_HOST {
        deadline, frames, ret := 0, [], now;
        NoFrames();
        return;
      }
      var frameNs := FrameTime(swapInterval, refreshHz);
      var lateNs := now - deadline;
      ret := now;
      if deadline == 0 || lateNs >= frameNs {
        deadline := now + frameNs;
      } else {
        if lateNs < 0 {
          ret := wake;
        }
        deadline := deadline + frameNs;
      }
      HistoryGrows(frames, Frame(now, ret, deadline, frameNs));
      frames := frames + [Frame(now, ret, deadline, frameNs)];
    }
  }

  lemma NoFrames()
    ensures History([])
  {
  }

  lemma HistoryGrows(fs: seq<Frame>, f: Frame)
    requires History(fs) && (fs != [] ==> f.now >= fs[|fs| - 1].ret)
    requires f.frameNs > 0 && f.now > 0 && Paced(DeadlineBefore(fs, |fs|), f)
    ensures History(fs + [f])
  {
    hide Paced;
    var fs' := fs + [f];
    forall n | 0 <= n < |fs'|
      ensures fs'[n].now > 0 && fs'[n].frameNs > 0
      ensures (n > 0 ==> fs'[n].now >= fs'[n - 1].ret) && Paced(DeadlineBefore(fs', n), fs'[n])
    {
      if n < |fs| {
        assert fs'[n] == fs[n] && DeadlineBefore(fs', n) == DeadlineBefore(fs, n);
      }
    }
  }

  // Over a run.

  lemma FrameFacts(fs: seq<Frame>, n: nat)
    requires History(fs) && n < |fs|
    ensures fs[n].frameNs > 0 && fs[n].now > 0 && Paced(DeadlineBefore(fs, n), fs[n])
    ensures n > 0 ==> fs[n].now >= fs[n - 1].ret && DeadlineBefore(fs, n) == fs[n - 1].deadline
  {
  }

  /** A frame returns no earlier than the frame times of all the frames before it after the first call. */
  lemma {:induction false} NoEarlierThan(fs: seq<Frame>, n: nat)
    requires History(fs) && n < |fs|
    ensures fs[n].ret >= fs[0].now + Times(fs, 0, n)
    ensures fs[n].deadline >= fs[0].now + Times(fs, 0, n + 1) && fs[n].deadline > 0
  {
    hide History;
    FrameFacts(fs, 0);
    FrameFacts(fs, n);
    if n > 0 {
      NoEarlierThan(fs, n - 1);
    }
  }

  /** Deadlines are at least the frame times between them apart. */
  lemma {:induction false} DeadlinesApart(fs: seq<Frame>, m: nat, n: nat)
    requires History(fs) && m <= n < |fs|
    ensures fs[n].deadline >= fs[m].deadline + Times(fs, m + 1, n + 1)
  {
    hide History;
    if m < n {
      DeadlinesApart(fs, m, n - 1);
      FrameFacts(fs, n);
    }
  }

  /** The sleep before frame m, if there was one, ended less than a frame time late. */
  predicate Punctual(fs: seq<Frame>, m: nat)
    requires m < |fs|
  {
    fs[m].now < DeadlineBefore(fs, m) ==> fs[m].ret < DeadlineBefore(fs, m) + fs[m].frameNs
  }

  /** A call returns before the deadline it leaves when it is punctual, and never before the one it found. */
  lemma ReturnBounds(fs: seq<Frame>, m: nat)
    requires History(fs) && m < |fs|
    ensures Punctual(fs, m) ==> fs[m].ret < fs[m].deadline
    ensures m > 0 ==> fs[m].ret >= fs[m - 1].deadline
  {
    hide History;
    FrameFacts(fs, m);
    if m > 0 {
      NoEarlierThan(fs, m - 1);
    }
  }

  /** Any n consecutive frames after a punctual one take longer than the frame times of the n - 1 between. */
  lemma Spacing(fs: seq<Frame>, m: nat, n: nat)
    requires History(fs) && n > 0 && m + n < |fs| && Punctual(fs, m)
    ensures fs[m + n].ret - fs[m].ret > Times(fs, m + 1, m + n)
  {
    hide History, Punctual;
    ReturnBounds(fs, m);
    ReturnBounds(fs, m + n);
    DeadlinesApart(fs, m, m + n - 1);
  }

  /** After a sleep that was not, the next frame can come at once, whatever its frame time: the least the two can be apart
      is nothing exactly when the first overslept by a frame time or more. */
  lemma OversleptFrameIsFollowedAtOnce(fs: seq<Frame>, m: nat, frameNs: int)
    requires History(fs) && m + 1 == |fs| && m > 0 && frameNs > 0
    ensures (exists f: Frame :: History(fs + [f]) && f.frameNs == frameNs && f.ret == fs[m].ret) <==> !Punctual(fs, m)
  {
    hide History;
    FrameFacts(fs, m);
    NoEarlierThan(fs, m);
    NoEarlierThan(fs, m - 1);
    var d := fs[m].deadline;
    if !Punctual(fs, m) {
      var now := fs[m].ret;
      var f := Frame(now, now, if now - d >= frameNs then now + frameNs else d + frameNs, frameNs);
      HistoryGrows(fs, f);
    } else {
      forall f: Frame | History(fs + [f])
        ensures f.ret != fs[m].ret
      {
        var fs' := fs + [f];
        assert fs'[m] == fs[m] && DeadlineBefore(fs', m) == DeadlineBefore(fs, m);
        Spacing(fs', m, 1);
      }
    }
  }

  /** Between resets the deadlines stay on one grid, without drift. */
  lemma {:induction false} OneGrid(fs: seq<Frame>, m: nat, n: nat)
    requires History(fs) && m <= n < |fs|
    requires forall k | m < k <= n :: !Resets(DeadlineBefore(fs, k), fs[k])
    ensures fs[n].deadline == fs[m].deadline + Times(fs, m + 1, n + 1)
  {
    hide History;
    if m < n {
      OneGrid(fs, m, n - 1);
      FrameFacts(fs, n);
    }
  }
}
