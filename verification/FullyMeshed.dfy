/** The reactive state machine of decentralized congestion control: from channel loads sampled
    every 100 ms to the interval between transmissions. */
module FullyMeshed {
  import opened Collections

  /** Channel loads at and above which the machine goes up. */
  const MIN_CHANNEL_LOAD: real := 0.19
  const MAX_CHANNEL_LOAD: real := 0.59

  type Load = x: real | 0.0 <= x <= 1.0 witness 0.0

  /** Samples, the latest first. */
  datatype Loads = NoLoads | Sampled(latest: Load, earlier: Loads)

  datatype Mode = Relaxed | Active(substate: nat) | Restrictive

  function Count(h: Loads): nat {
    if h.NoLoads? then 0 else 1 + Count(h.earlier)
  }

  /** The lowest of the `n` latest samples; none stands for infinity. */
  function Lowest(n: nat, h: Loads): Option<Load> {
    if n == 0 || h.NoLoads? then None else Some(LowerOf(h.latest, Lowest(n - 1, h.earlier)))
  }

  function LowerOf(x: Load, y: Option<Load>): Load {
    if y.Some? && y.value < x then y.value else x
  }

  function HigherOf(x: Load, y: Load): Load {
    if x < y then y else x
  }

  /** The highest of the `n` latest samples, zero if there are none. */
  function Highest(n: nat, h: Loads): Load {
    if n == 0 || h.NoLoads? then 0.0 else HigherOf(h.latest, Highest(n - 1, h.earlier))
  }

  function MinLoad(h: Loads): Load {
    var low := Lowest(10, h);
    if low.Some? then low.value else 0.0
  }

  function MaxLoad(h: Loads): Load {
    Highest(50, h)
  }

  /** The thresholds of the active substates that a load reaches. */
  function Reached(load: Load): (n: nat)
    ensures n <= 5
  {
    if load < 0.27 then 0
    else if load < 0.35 then 1
    else if load < 0.43 then 2
    else if load < 0.51 then 3
    else if load < 0.59 then 4
    else 5
  }

  /** The thresholds lie 0.08 apart, the first 0.08 above the load at which the machine becomes active
      and the fifth at the one at which it becomes restrictive. */
  lemma ThresholdsEven(load: Load, k: int)
    requires 1 <= k <= 5
    ensures Reached(load) >= k <==> load >= MIN_CHANNEL_LOAD + 0.08 * k as real
    ensures MIN_CHANNEL_LOAD + 0.08 * 5.0 == MAX_CHANNEL_LOAD
  {
  }

  /** The substate for the highest load of the last five seconds. */
  function Substate(load: Load): (n: nat)
    ensures n <= 4
  {
    if Reached(load) > 4 then 4 else Reached(load)
  }

  /** The mode after a sample; `h` has that sample as its latest. */
  function Next(mode: Mode, h: Loads): Mode {
    match mode
    case Relaxed => if MinLoad(h) >= MIN_CHANNEL_LOAD then Active(Substate(MaxLoad(h))) else Relaxed
    case Restrictive => if MaxLoad(h) < MAX_CHANNEL_LOAD then Active(Substate(MaxLoad(h))) else Restrictive
    case Active(_) =>
      if MaxLoad(h) < MIN_CHANNEL_LOAD then Relaxed
      else if MinLoad(h) >= MAX_CHANNEL_LOAD then Restrictive
      else Active(Substate(MaxLoad(h)))
  }

  /** The mode after a history of samples. */
  function ModeAfter(h: Loads): Mode {
    if h.NoLoads? then Relaxed else Next(ModeAfter(h.earlier), h)
  }

  /** The interval between transmissions, in milliseconds. */
  function Interval(mode: Mode): nat {
    match mode
    case Relaxed => 60
    case Active(n) => 100 + 80 * n
    case Restrictive => 460
  }

  // ----- windows

  /** Every one of the `n` latest samples lies in the range. */
  predicate AllWithin(n: nat, h: Loads, low: real, below: real) {
    n == 0 || h.NoLoads? || (low <= h.latest < below && AllWithin(n - 1, h.earlier, low, below))
  }

  lemma {:induction false} LowestAtLeast(n: nat, h: Loads, low: real)
    ensures Lowest(n, h).None? || Lowest(n, h).value >= low <==> AllWithin(n, h, low, 2.0)
  {
    if n > 0 && h.Sampled? {
      LowestAtLeast(n - 1, h.earlier, low);
    }
  }

  lemma {:induction false} HighestBelow(n: nat, h: Loads, below: real)
    requires below > 0.0
    ensures Highest(n, h) < below <==> AllWithin(n, h, 0.0, below)
  {
    if n > 0 && h.Sampled? {
      HighestBelow(n - 1, h.earlier, below);
    }
  }

  lemma {:induction false} Narrower(n: nat, i: nat, h: Loads, low: real, below: real, low': real, below': real)
    requires n <= i && AllWithin(i, h, low, below)
    requires low' <= low && below <= below'
    ensures AllWithin(n, h, low', below')
  {
    if n > 0 && h.Sampled? {
      Narrower(n - 1, i - 1, h.earlier, low, below, low', below');
    }
  }

  /** The two windows overlap in the latest sample, so their extremes are ordered. */
  lemma MinUpToMax(h: Loads)
    ensures MinLoad(h) <= MaxLoad(h)
  {
  }

  // ----- transitions

  /** The machine never changes between its extremes directly. */
  lemma NoDirectSwing(h: Loads)
    requires h.Sampled?
    ensures !(ModeAfter(h.earlier).Relaxed? && ModeAfter(h).Restrictive?)
    ensures !(ModeAfter(h.earlier).Restrictive? && ModeAfter(h).Relaxed?)
  {
  }

  /** When exactly the machine changes, by the samples of the last second and five seconds. */
  lemma TransitionsByWindow(h: Loads)
    requires h.Sampled?
    ensures ModeAfter(h.earlier).Relaxed? ==>
      (ModeAfter(h).Active? <==> AllWithin(10, h, MIN_CHANNEL_LOAD, 2.0))
    ensures ModeAfter(h.earlier).Restrictive? ==>
      (ModeAfter(h).Active? <==> AllWithin(50, h, 0.0, MAX_CHANNEL_LOAD))
    ensures ModeAfter(h.earlier).Active? ==>
      && (ModeAfter(h).Relaxed? <==> AllWithin(50, h, 0.0, MIN_CHANNEL_LOAD))
      && (ModeAfter(h).Restrictive? <==> AllWithin(10, h, MAX_CHANNEL_LOAD, 2.0))
  {
    LowestAtLeast(10, h, MIN_CHANNEL_LOAD);
    LowestAtLeast(10, h, MAX_CHANNEL_LOAD);
    HighestBelow(50, h, MIN_CHANNEL_LOAD);
    HighestBelow(50, h, MAX_CHANNEL_LOAD);
    MinUpToMax(h);
  }

  /** `since` followed by more samples. */
  function Followed(newer: Loads, since: Loads): Loads {
    if newer.NoLoads? then since else Sampled(newer.latest, Followed(newer.earlier, since))
  }

  /** A sample stays in a window of `n` for `n` updates. */
  lemma {:induction false} StillInWindow(n: nat, newer: Loads, since: Loads)
    requires since.Sampled? && Count(newer) < n
    ensures Highest(n, Followed(newer, since)) >= since.latest
  {
    if newer.Sampled? {
      StillInWindow(n - 1, newer.earlier, since);
    }
  }

  /** Restrictive, once entered, lasts through at least the next 49 updates. */
  lemma {:induction false} RestrictiveLasts(newer: Loads, entry: Loads)
    requires entry.Sampled? && !ModeAfter(entry.earlier).Restrictive? && ModeAfter(entry).Restrictive?
    requires Count(newer) < 50
    ensures ModeAfter(Followed(newer, entry)).Restrictive?
  {
    if newer.Sampled? {
      RestrictiveLasts(newer.earlier, entry);
      StillInWindow(50, newer, entry);
      assert entry.latest >= MinLoad(entry);
    }
  }

  lemma {:induction false} FollowedWithin(n: nat, newer: Loads, since: Loads, low: real, below: real)
    requires n <= Count(newer) && AllWithin(n, newer, low, below)
    ensures AllWithin(n, Followed(newer, since), low, below)
  {
    if n > 0 {
      FollowedWithin(n - 1, newer.earlier, since, low, below);
    }
  }

  /** And no longer, when the load drops at once: the 50th update then leaves it. */
  lemma RestrictiveEnds(newer: Loads, entry: Loads)
    requires entry.Sampled? && !ModeAfter(entry.earlier).Restrictive? && ModeAfter(entry).Restrictive?
    requires Count(newer) == 50 && AllWithin(50, newer, 0.0, MAX_CHANNEL_LOAD)
    ensures ModeAfter(Followed(newer, entry)).Active?
  {
    RestrictiveLasts(newer.earlier, entry);
    FollowedWithin(50, newer, entry, 0.0, MAX_CHANNEL_LOAD);
    HighestBelow(50, Followed(newer, entry), MAX_CHANNEL_LOAD);
  }

  /** Relaxed, once left, is not entered again at any of the next 49 updates. */
  lemma {:induction false} RelaxedStaysAway(newer: Loads, exit: Loads)
    requires exit.Sampled? && ModeAfter(exit.earlier).Relaxed? && !ModeAfter(exit).Relaxed?
    requires Count(newer) < 50
    ensures !ModeAfter(Followed(newer, exit)).Relaxed?
  {
    if newer.Sampled? {
      RelaxedStaysAway(newer.earlier, exit);
      StillInWindow(50, newer, exit);
      assert exit.latest >= MinLoad(exit);
    }
  }

  /** After 51 low samples, whatever came before, the machine is relaxed. */
  lemma CoolsDown(h: Loads)
    requires Count(h) >= 51 && AllWithin(51, h, 0.0, MIN_CHANNEL_LOAD)
    ensures ModeAfter(h).Relaxed?
  {
    Narrower(50, 51, h, 0.0, MIN_CHANNEL_LOAD, 0.0, MIN_CHANNEL_LOAD);
    Narrower(50, 50, h.earlier, 0.0, MIN_CHANNEL_LOAD, 0.0, MIN_CHANNEL_LOAD);
    HighestBelow(50, h, MIN_CHANNEL_LOAD);
    HighestBelow(50, h.earlier, MIN_CHANNEL_LOAD);
    MinUpToMax(h);
    MinUpToMax(h.earlier);
  }

  /** After 11 high samples, whatever came before, the machine is restrictive. */
  lemma RampsUp(h: Loads)
    requires Count(h) >= 11 && AllWithin(11, h, MAX_CHANNEL_LOAD, 2.0)
    ensures ModeAfter(h).Restrictive?
  {
    Narrower(10, 11, h, MAX_CHANNEL_LOAD, 2.0, MAX_CHANNEL_LOAD, 2.0);
    LowestAtLeast(10, h, MAX_CHANNEL_LOAD);
    LowestAtLeast(10, h.earlier, MAX_CHANNEL_LOAD);
    MinUpToMax(h);
    MinUpToMax(h.earlier);
  }

  /** After 50 samples in between, whatever came before, the machine is active, and its substate
      counts the thresholds reached by the highest of them. */
  lemma Settles(h: Loads)
    requires Count(h) >= 50 && AllWithin(50, h, MIN_CHANNEL_LOAD, MAX_CHANNEL_LOAD)
    ensures ModeAfter(h) == Active(Reached(MaxLoad(h)))
  {
    Narrower(50, 50, h, MIN_CHANNEL_LOAD, MAX_CHANNEL_LOAD, 0.0, MAX_CHANNEL_LOAD);
    HighestBelow(50, h, MAX_CHANNEL_LOAD);
    Narrower(10, 50, h, MIN_CHANNEL_LOAD, MAX_CHANNEL_LOAD, MIN_CHANNEL_LOAD, 2.0);
    LowestAtLeast(10, h, MIN_CHANNEL_LOAD);
    MinUpToMax(h);
  }

  // ----- monotony

  /** As many samples, none of them higher. */
  predicate Lighter(a: Loads, b: Loads) {
    if a.NoLoads? || b.NoLoads? then a.NoLoads? && b.NoLoads?
    else a.latest <= b.latest && Lighter(a.earlier, b.earlier)
  }

  lemma {:induction false} LighterWindows(n: nat, a: Loads, b: Loads)
    requires Lighter(a, b)
    ensures Highest(n, a) <= Highest(n, b)
    ensures Lowest(n, a).None? <==> Lowest(n, b).None?
    ensures Lowest(n, a).Some? ==> Lowest(n, a).value <= Lowest(n, b).value
  {
    if n > 0 && a.Sampled? {
      LighterWindows(n - 1, a.earlier, b.earlier);
    }
  }

  /** A lighter load never costs a longer interval: over whole histories, hysteresis included. */
  lemma {:induction false} LighterIsFaster(a: Loads, b: Loads)
    requires Lighter(a, b)
    ensures Interval(ModeAfter(a)) <= Interval(ModeAfter(b))
    ensures ModeAfter(b).Relaxed? ==> ModeAfter(a).Relaxed?
    ensures ModeAfter(a).Restrictive? ==> ModeAfter(b).Restrictive?
  {
    if a.Sampled? {
      LighterIsFaster(a.earlier, b.earlier);
      LighterWindows(10, a, b);
      LighterWindows(50, a, b);
      MinUpToMax(a);
      MinUpToMax(b);
    }
  }

  // ----- the machine

  datatype StateId = RelaxedState | ActiveState | RestrictiveState

  /** A ring buffer's samples, the latest in front. */
  function FromSeq(s: seq<Load>): Loads {
    if s == [] then NoLoads else Sampled(s[0], FromSeq(s[1..]))
  }

  /** `s` holds the `n` latest samples of a history. */
  predicate Keeps(s: seq<Load>, n: nat, h: Loads) {
    if s == [] then n == 0 || h.NoLoads?
    else n > 0 && h.Sampled? && s[0] == h.latest && Keeps(s[1..], n - 1, h.earlier)
  }

  lemma {:induction false} KeepsPush(s: seq<Load>, n: nat, h: Loads, x: Load)
    requires n > 0 && Keeps(s, n, h)
    ensures Keeps(if |s| == n then [x] + s[..n - 1] else [x] + s, n, Sampled(x, h))
  {
    KeepsFewer(s, n, h);
    var s' := if |s| == n then [x] + s[..n - 1] else [x] + s;
    assert s'[1..] == if |s| == n then s[..n - 1] else s;
  }

  lemma {:induction false} KeepsFewer(s: seq<Load>, n: nat, h: Loads)
    requires n > 0 && Keeps(s, n, h)
    ensures |s| <= n
    ensures Keeps(if |s| == n then s[..n - 1] else s, n - 1, h)
  {
    if s != [] {
      if n == 1 {
        KeepsEmpty(s[1..], h.earlier);
      } else {
        KeepsFewer(s[1..], n - 1, h.earlier);
        assert |s| == n ==> s[..n - 1][1..] == s[1..][..n - 2];
      }
    }
  }

  lemma KeepsEmpty(s: seq<Load>, h: Loads)
    requires Keeps(s, 0, h)
    ensures s == []
  {
  }

  lemma {:induction false} KeepsWindows(s: seq<Load>, n: nat, h: Loads, i: nat)
    requires Keeps(s, n, h) && i <= n
    ensures Lowest(i, FromSeq(s)) == Lowest(i, h) && Highest(i, FromSeq(s)) == Highest(i, h)
  {
    if s != [] && i > 0 {
      KeepsWindows(s[1..], n - 1, h.earlier, i - 1);
    }
  }

  /** The first threshold above a load, by position. */
  method UpperBound(thresholds: seq<real>, load: real) returns (n: nat)
    ensures n <= |thresholds|
    ensures forall i :: 0 <= i < n ==> thresholds[i] <= load
    ensures n < |thresholds| ==> load < thresholds[n]
  {
    n := 0;
    while n < |thresholds| && !(load < thresholds[n])
      invariant n <= |thresholds|
      invariant forall i :: 0 <= i < n ==> thresholds[i] <= load
    {
      n := n + 1;
    }
  }

  /** The active state's choice by the lowest load up and by the highest load down: the latter
      always decides. */
  method ChooseSubstate(low: Load, high: Load) returns (n: nat)
    requires low <= high
    ensures n == Substate(high)
  {
    var thresholds := [0.27, 0.35, 0.43, 0.51, 0.59];
    var up := UpperBound(thresholds, low);
    var down := UpperBound(thresholds, high);
    assert down == Reached(high);
    assert down < |thresholds| ==> low < thresholds[down];
    n := Max(up, down);
    n := if n > 4 then 4 else n;
  }

  class FullyMeshedStateMachine {
    var state: StateId
    var substate: nat
    var channelLoads: seq<Load>     // a ring buffer of 50 samples, the latest in front
    ghost var history: Loads

    ghost predicate Valid()
      reads this
    {
      Keeps(channelLoads, 50, history) && Current() == ModeAfter(history)
    }

    function Current(): Mode
      reads this
    {
      match state
      case RelaxedState => Relaxed
      case ActiveState => Active(substate)
      case RestrictiveState => Restrictive
    }

    constructor ()
      ensures Valid() && history == NoLoads
    {
      state, substate, channelLoads, history := RelaxedState, 0, [], NoLoads;
    }

    method Update(load: Load)
      requires Valid()
      modifies this
      ensures Valid() && history == Sampled(load, old(history))
    {
      PushFront(load);
      var low := MinChannelLoad();
      var high := MaxChannelLoad();
      MinUpToMax(history);
      if state == RelaxedState {
        if low >= MIN_CHANNEL_LOAD {
          Activate(low, high);
        }
      } else if state == RestrictiveState {
        if high < MAX_CHANNEL_LOAD {
          Activate(low, high);
        }
      } else {
        if high < MIN_CHANNEL_LOAD {
          state := RelaxedState;
        } else if low >= MAX_CHANNEL_LOAD {
          state := RestrictiveState;
        } else {
          Activate(low, high);
        }
      }
    }

    method PushFront(load: Load)
      requires Keeps(channelLoads, 50, history)
      modifies this`channelLoads, this`history
      ensures history == Sampled(load, old(history)) && Keeps(channelLoads, 50, history)
    {
      KeepsPush(channelLoads, 50, history, load);
      channelLoads := if |channelLoads| == 50 then [load] + channelLoads[..49] else [load] + channelLoads;
      history := Sampled(load, history);
    }

    method Activate(low: Load, high: Load)
      requires low <= high
      modifies this`state, this`substate
      ensures Current() == Active(Substate(high))
    {
      state := ActiveState;
      substate := ChooseSubstate(low, high);
    }

    method MinChannelLoad() returns (load: Load)
      requires Keeps(channelLoads, 50, history)
      ensures load == MinLoad(history)
    {
      var low: Option<Load> := None;
      var count: nat := 0;
      while count < |channelLoads|
        invariant count <= |channelLoads| && count <= 10
        invariant Meet(low, Lowest(10 - count, FromSeq(channelLoads[count..]))) == Lowest(10, FromSeq(channelLoads))
      {
        var sample := channelLoads[count];
        assert channelLoads[count..][1..] == channelLoads[count + 1..];
        if count >= 10 {
          break;
        } else if low.None? || sample < low.value {
          low := Some(sample);
        }
        count := count + 1;
      }
      KeepsWindows(channelLoads, 50, history, 10);
      load := if low.None? then 0.0 else low.value;
    }

    method MaxChannelLoad() returns (load: Load)
      requires Keeps(channelLoads, 50, history)
      ensures load == MaxLoad(history)
    {
      load := 0.0;
      var count: nat := 0;
      while count < |channelLoads|
        invariant count <= |channelLoads| && count <= 50
        invariant
          HigherOf(load, Highest(50 - count, FromSeq(channelLoads[count..]))) == Highest(50, FromSeq(channelLoads))
      {
        var sample := channelLoads[count];
        assert channelLoads[count..][1..] == channelLoads[count + 1..];
        if count >= 50 {
          break;
        } else if sample > load {
          load := sample;
        }
        count := count + 1;
      }
      KeepsWindows(channelLoads, 50, history, 50);
    }

    method TransmissionInterval() returns (ms: nat)
      requires Valid()
      ensures ms == Interval(ModeAfter(history))
    {
      match state
      case RelaxedState => ms := 60;
      case RestrictiveState => ms := 460;
      case ActiveState =>
        ActiveSubstate(history);
        var intervals := [100, 180, 260, 340, 420];
        ms := intervals[if 4 < substate then 4 else substate];
    }
  }

  lemma ActiveSubstate(h: Loads)
    ensures ModeAfter(h).Active? ==> ModeAfter(h).substate <= 4
  {
  }

  /** The lower of two samples, where none stands for infinity. */
  function Meet(a: Option<Load>, b: Option<Load>): Option<Load> {
    if a.None? then b else Some(LowerOf(a.value, b))
  }
}
