/**
 * The stand-in statistics interface of the 4x4 simulator: a registry of
 * named accumulators, each with a running value and the list of events that
 * built it.  A statistic handle stores only its name and a reference to the
 * registry's dictionary, so `addData` on a handle is modelled as `AddData`
 * on the registry with that name.  Event timestamps are not modelled.
 */
module MockStatistics {

  /** One `addData` call: the amount added and the running total after it. */
  datatype StatEvent = StatEvent(value: int, total: int)

  datatype Stat = Stat(name: string, description: string, value: int, events: seq<StatEvent>)

  /** A freshly registered statistic: value 0, no events. */
  function NewStat(name: string, description: string): Stat
  {
    Stat(name, description, 0, [])
  }

  /** The statistic after `addData(v)`. */
  function Added(s: Stat, v: int): (r: Stat)
    ensures r.value == s.value + v
    ensures r.events == s.events + [StatEvent(v, r.value)]
    ensures r.name == s.name && r.description == s.description
  {
    s.(value := s.value + v, events := s.events + [StatEvent(v, s.value + v)])
  }

  /** The registry after `addData(v)` on the statistic `name`; other entries are untouched. */
  function AddedData(stats: map<string, Stat>, name: string, v: int): (r: map<string, Stat>)
    ensures r.Keys == stats.Keys
    ensures forall k :: k in stats && k != name ==> r[k] == stats[k]
    ensures name in stats ==> r[name].value == stats[name].value + v
  {
    if name in stats then stats[name := Added(stats[name], v)] else stats
  }

  function SumValues(events: seq<StatEvent>): int
    decreases |events|
  {
    if |events| == 0 then 0 else SumValues(events[..|events| - 1]) + events[|events| - 1].value
  }

  /** The value is the sum of the event amounts, and each event's total is the running sum up to it. */
  predicate Consistent(s: Stat)
  {
    && s.value == SumValues(s.events)
    && forall i :: 0 <= i < |s.events| ==> s.events[i].total == SumValues(s.events[..i + 1])
  }

  lemma NewStatConsistent(name: string, description: string)
    ensures Consistent(NewStat(name, description))
  {
  }

  /** `addData` keeps a statistic's value and its event totals in step. */
  lemma AddedConsistent(s: Stat, v: int)
    requires Consistent(s)
    ensures Consistent(Added(s, v))
  {
    var r := Added(s, v);
    assert r.events[..|r.events| - 1] == s.events;
    forall i | 0 <= i < |r.events|
      ensures r.events[i].total == SumValues(r.events[..i + 1])
    {
      if i < |s.events| {
        assert r.events[..i + 1] == s.events[..i + 1];
      } else {
        assert r.events[..i + 1] == r.events;
      }
    }
  }

  /** The registry (`MockSSTStatistics`): statistic name to statistic. */
  class MockSSTStatistics {
    var stats: map<string, Stat>

    constructor()
      ensures stats == map[]
    {
      stats := map[];
    }

    /** `registerStatistic`: (re)creates the entry with value 0 and no events. */
    method RegisterStatistic(name: string, description: string)
      modifies this
      ensures stats == old(stats)[name := NewStat(name, description)]
    {
      stats := stats[name := NewStat(name, description)];
    }

    /** `MockStatistic.addData` on the handle registered under `name`. */
    method AddData(name: string, value: int)
      requires name in stats
      modifies this
      ensures stats == AddedData(old(stats), name, value)
      ensures stats[name].value == old(stats)[name].value + value
      ensures stats[name].events == old(stats)[name].events + [StatEvent(value, stats[name].value)]
    {
      stats := stats[name := Added(stats[name], value)];
    }
  }
}
