/**
 One log of what everybody does, and what the code at hand has done of it: its
 deeds, with their places in the log.
 */
module Deeds {

  /** deeds are the events at these places of the log, in order; alone, there are no others. */
  ghost predicate Recorded<T>(log: seq<T>, deeds: seq<T>, places: seq<nat>, alone: bool)
    decreases |deeds|
  {
    && |places| == |deeds|
    && if deeds == [] then alone ==> log == []
       else
         var n := |deeds| - 1;
         var k := places[n];
         k < |log| && log[k] == deeds[n] && (alone ==> k + 1 == |log|) && Recorded(log[..k], deeds[..n], places[..n], alone)
  }

  lemma RecordedSnoc<T>(log: seq<T>, deeds: seq<T>, places: seq<nat>, alone: bool, e: T)
    requires Recorded(log, deeds, places, alone)
    ensures Recorded(log + [e], deeds + [e], places + [|log|], alone)
  {
    assert (log + [e])[..|log|] == log && (deeds + [e])[..|deeds|] == deeds && (places + [|log|])[..|places|] == places;
  }

  lemma RecordedLater<T>(log: seq<T>, log': seq<T>, deeds: seq<T>, places: seq<nat>, alone: bool)
    requires Recorded(log, deeds, places, alone) && log <= log' && (alone ==> log' == log)
    ensures Recorded(log', deeds, places, alone)
  {
    if deeds != [] {
      var k := places[|deeds| - 1];
      assert log'[..k] == log[..k];
    }
  }

  lemma {:induction false} PlacesGrow<T>(log: seq<T>, deeds: seq<T>, places: seq<nat>, alone: bool, i: nat, j: nat)
    requires Recorded(log, deeds, places, alone) && i < j < |places|
    ensures places[i] < places[j]
    decreases |places|
  {
    var n := |deeds| - 1;
    var k := places[n];
    if j < n {
      PlacesGrow(log[..k], deeds[..n], places[..n], alone, i, j);
    } else {
      PlacesWithin(log[..k], deeds[..n], places[..n], alone, i);
    }
  }

  lemma {:induction false} PlacesWithin<T>(log: seq<T>, deeds: seq<T>, places: seq<nat>, alone: bool, i: nat)
    requires Recorded(log, deeds, places, alone) && i < |places|
    ensures places[i] < |log| && log[places[i]] == deeds[i]
    decreases |places|
  {
    var n := |deeds| - 1;
    if i < n { PlacesWithin(log[..places[n]], deeds[..n], places[..n], alone, i); }
  }

  /** Alone, what has happened is what was done here. */
  lemma {:induction false} AloneIsAll<T>(log: seq<T>, deeds: seq<T>, places: seq<nat>)
    requires Recorded(log, deeds, places, true)
    ensures log == deeds
    decreases |deeds|
  {
    if deeds != [] {
      var n := |deeds| - 1;
      AloneIsAll(log[..places[n]], deeds[..n], places[..n]);
      assert log == log[..places[n]] + [log[places[n]]] && deeds == deeds[..n] + [deeds[n]];
    }
  }
}
