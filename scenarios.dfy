/**
 Two concrete runs of one watch cycle over a transport that never fails.
 */
module Scenarios {
  import opened Configuration
  import opened Matcher
  import opened Debounce
  import opened Watch

  const Required: seq<string> := ["-fullscreen"]
  const Windowed: Snapshot := [OsProcess("game.exe", ["game.exe"])]
  const Fullscreen: Snapshot := [OsProcess("game.exe", ["game.exe", "-fullscreen"])]

  lemma Verdicts()
    ensures !AnyMatch(Required, Windowed)
    ensures AnyMatch(Required, Fullscreen)
  {
    assert Fullscreen[0] in Fullscreen && Required[0] in Fullscreen[0].cmd;
    assert Required[0] != "game.exe";
  }

  /** The game windowed, then fullscreen for two ticks, then windowed again:
      the startup `false`, then on, then off. */
  lemma GameGoesFullscreenAndBack()
    ensures Cycle(Required, [Windowed, Fullscreen, Fullscreen, Windowed], n => true, 0)
            == CycleRun([false, true, false], Watching)
  {
    var ticks := [Windowed, Fullscreen, Fullscreen, Windowed];
    Verdicts();
    var samples := Samples(Required, ticks);
    assert !samples[0] && samples[1] && samples[2] && !samples[3];
    assert samples == [false, true, true, false];
    assert Notifications(false, samples) == [true, false] by {
      assert [false][1..] == [];
      assert Notifications(true, [false]) == [false];
      assert [true, false][1..] == [false];
      assert Notifications(true, [true, false]) == [false];
      assert [true, true, false][1..] == [true, false];
      assert Notifications(false, [true, true, false]) == [true, false];
      assert samples[1..] == [true, true, false];
    }
    NoFailureNoError(Required, ticks, n => true, 0);
  }

  /** The game fullscreen at every one of ten ticks: the startup `false` and
      one `true`, nothing more. */
  lemma ContinuouslyPresent(ticks: seq<Snapshot>)
    requires |ticks| == 10
    requires forall t :: 0 <= t < |ticks| ==> ticks[t] == Fullscreen
    ensures Cycle(Required, ticks, n => true, 0) == CycleRun([false, true], Watching)
  {
    Verdicts();
    var samples := Samples(Required, ticks);
    assert samples == [true] + samples[1..];
    SilentIffStable(true, samples[1..]);
    assert Notifications(false, samples) == [true];
    NoFailureNoError(Required, ticks, n => true, 0);
  }
}
