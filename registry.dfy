/**
 * The station registry: merging the timetable files into one list of stop names
 * (`MultiConnection::from`). Names are deduplicated in first-seen order across
 * the files, and every passing is renumbered from its file's local stop index
 * to the global one.
 */
module Registry {
  import opened Timetable

  /** The stop names of all files, file after file. */
  function AllStops(conns: seq<Connection>): seq<string>
  {
    if conns == [] then [] else AllStops(conns[..|conns| - 1]) + conns[|conns| - 1].stops
  }

  /** The first occurrence of every name, in order of first occurrence. */
  function Dedup(names: seq<string>): seq<string>
  {
    if names == [] then []
    else
      var kept := Dedup(names[..|names| - 1]);
      var last := names[|names| - 1];
      if last in kept then kept else kept + [last]
  }

  /** `kept` followed by the names of `rest` not yet listed, in first-seen order:
      the registry after the names of `rest` have been seen one by one. */
  function Register(kept: seq<string>, rest: seq<string>): seq<string>
    decreases |rest|
  {
    if rest == [] then kept
    else Register(if rest[0] in kept then kept else kept + [rest[0]], rest[1..])
  }

  /** Registering names one by one builds exactly the first occurrences. */
  lemma {:induction false} RegisterExtendsDedup(seen: seq<string>, rest: seq<string>)
    ensures Register(Dedup(seen), rest) == Dedup(seen + rest)
    ensures |Dedup(seen)| <= |Dedup(seen + rest)| && Dedup(seen + rest)[..|Dedup(seen)|] == Dedup(seen)
    decreases |rest|
  {
    if rest == [] {
      assert seen + rest == seen;
    } else {
      DedupSnoc(seen, rest[0]);
      RegisterExtendsDedup(seen + [rest[0]], rest[1..]);
      assert seen + [rest[0]] + rest[1..] == seen + rest;
    }
  }

  lemma DedupSnoc(names: seq<string>, x: string)
    ensures Dedup(names + [x]) == if x in Dedup(names) then Dedup(names) else Dedup(names) + [x]
  {
    assert (names + [x])[..|names|] == names;
  }

  predicate NoDuplicates(s: seq<string>)
  {
    forall i, j :: 0 <= i < j < |s| ==> s[i] != s[j]
  }

  /** Position of the first occurrence of `x` in `s`. */
  function FirstIndex(s: seq<string>, x: string): (k: nat)
    requires x in s
    ensures k < |s| && s[k] == x && forall i :: 0 <= i < k ==> s[i] != x
  {
    if s[0] == x then 0 else 1 + FirstIndex(s[1..], x)
  }

  /** The registry lists each name once, every name it lists was seen, and every
      name seen is listed. */
  lemma {:induction false} DedupKeepsNamesOnce(names: seq<string>)
    ensures NoDuplicates(Dedup(names))
    ensures forall x :: x in Dedup(names) <==> x in names
  {
    if names != [] {
      var init := names[..|names| - 1];
      DedupKeepsNamesOnce(init);
      assert names == init + [names[|names| - 1]];
    }
  }

  /** The registry lists names in the order in which they were first seen. */
  lemma {:induction false} DedupFirstSeenOrder(names: seq<string>, i: nat, j: nat)
    requires i < j < |Dedup(names)|
    ensures Dedup(names)[i] in names && Dedup(names)[j] in names
    ensures FirstIndex(names, Dedup(names)[i]) < FirstIndex(names, Dedup(names)[j])
  {
    DedupKeepsNamesOnce(names);
    var init := names[..|names| - 1];
    var last := names[|names| - 1];
    var kept := Dedup(init);
    DedupKeepsNamesOnce(init);
    assert names == init + [last];
    var x, y := Dedup(names)[i], Dedup(names)[j];
    FirstIndexOfPrefix(init, last, x);
    if j < |kept| {
      DedupFirstSeenOrder(init, i, j);
      FirstIndexOfPrefix(init, last, y);
    } else {
      // y is the last name, new to the prefix, so it first occurs at the end
      assert y == last && last !in init;
      assert forall k :: 0 <= k < |init| ==> names[k] == init[k] && init[k] != y;
    }
  }

  lemma FirstIndexOfPrefix(init: seq<string>, last: string, x: string)
    requires x in init
    ensures x in init + [last] && FirstIndex(init + [last], x) == FirstIndex(init, x)
  {
    var s := init + [last];
    var f, g := FirstIndex(s, x), FirstIndex(init, x);
    assert s[g] == x;
    assert f <= g;
    assert init[f] == s[f];
  }

  // ---------------------------------------------------------------------------
  // Renumbering

  /** A passing renumbered through the file's local-to-global stop map. */
  function RemapPassing(p: Passing, localToGlobal: map<nat, nat>): Passing
    requires p.stopPoint in localToGlobal
  {
    Passing(localToGlobal[p.stopPoint], p.arrival, p.departure)
  }

  /** `journey.passings.iter().map(...).collect()`. */
  function RemapPassings(ps: seq<Passing>, localToGlobal: map<nat, nat>): (r: seq<Passing>)
    requires forall k :: 0 <= k < |ps| ==> ps[k].stopPoint in localToGlobal
    ensures |r| == |ps|
  {
    if ps == [] then []
    else [RemapPassing(ps[0], localToGlobal)] + RemapPassings(ps[1..], localToGlobal)
  }

  /** `renumbered` is `j` with each passing pointing at the global index of the
      same stop name, and nothing else changed. */
  predicate JourneyRenumbered(j: Journey, renumbered: Journey, localStops: seq<string>, stops: seq<string>)
  {
    && renumbered.validFrom == j.validFrom
    && renumbered.validTo == j.validTo
    && renumbered.days == j.days
    && |renumbered.passings| == |j.passings|
    && forall k :: 0 <= k < |j.passings| ==>
         var p, q := j.passings[k], renumbered.passings[k];
         && q.arrival == p.arrival && q.departure == p.departure
         && p.stopPoint < |localStops| && q.stopPoint < |stops|
         && stops[q.stopPoint] == localStops[p.stopPoint]
  }

  /** The sub-connection carries the file's calendar unchanged and its journeys,
      in order, renumbered against the global stop list. */
  predicate ConnectionRenumbered(c: Connection, sub: SubConnection, stops: seq<string>)
  {
    && sub.operatingPeriods == c.operatingPeriods
    && sub.dayTypes == c.dayTypes
    && |sub.journeys| == |c.journeys|
    && forall j :: 0 <= j < |c.journeys| ==> JourneyRenumbered(c.journeys[j], sub.journeys[j], c.stops, stops)
  }

  /** Renumbering stays correct when the global list grows at its end. */
  lemma ConnectionRenumberedGrows(c: Connection, sub: SubConnection, stops: seq<string>, more: seq<string>)
    requires ConnectionRenumbered(c, sub, stops)
    ensures ConnectionRenumbered(c, sub, stops + more)
  {
    forall j | 0 <= j < |c.journeys|
      ensures JourneyRenumbered(c.journeys[j], sub.journeys[j], c.stops, stops + more)
    {
      var jr, rn := c.journeys[j], sub.journeys[j];
      forall k | 0 <= k < |jr.passings|
        ensures (stops + more)[rn.passings[k].stopPoint] == stops[rn.passings[k].stopPoint]
      {
      }
    }
  }

  /** Every local stop index of a passing names one of the file's stops. */
  predicate StopsIndexed(c: Connection)
  {
    forall j, k :: 0 <= j < |c.journeys| && 0 <= k < |c.journeys[j].passings| ==>
      c.journeys[j].passings[k].stopPoint < |c.stops|
  }

  lemma {:induction false} RemapPassingsRenumbers(
    ps: seq<Passing>, localToGlobal: map<nat, nat>, localStops: seq<string>, stops: seq<string>)
    requires forall k :: 0 <= k < |ps| ==> ps[k].stopPoint < |localStops|
    requires forall q :: q in localToGlobal <==> 0 <= q < |localStops|
    requires forall q :: q in localToGlobal ==> localToGlobal[q] < |stops| && stops[localToGlobal[q]] == localStops[q]
    ensures var r := RemapPassings(ps, localToGlobal);
            forall k :: 0 <= k < |ps| ==>
              && r[k].arrival == ps[k].arrival && r[k].departure == ps[k].departure
              && r[k].stopPoint < |stops| && stops[r[k].stopPoint] == localStops[ps[k].stopPoint]
  {
    if ps != [] {
      RemapPassingsRenumbers(ps[1..], localToGlobal, localStops, stops);
      var r := RemapPassings(ps, localToGlobal);
      assert r[1..] == RemapPassings(ps[1..], localToGlobal);
      forall k | 1 <= k < |ps|
        ensures r[k] == RemapPassings(ps[1..], localToGlobal)[k - 1] && ps[k] == ps[1..][k - 1]
      {
      }
    }
  }

  /** The registry's own invariant: `index` maps exactly the listed names to
      their positions, and `counter` is the next free position. */
  ghost predicate Indexes(index: map<string, nat>, names: seq<string>)
  {
    && (forall i :: 0 <= i < |names| ==> names[i] in index)
    && (forall s :: s in index ==> index[s] < |names| && names[index[s]] == s)
  }

  /** The stop loop of one file: registers names not seen before and records,
      for every local stop index, the global index of its name. */
  method RegisterStops(localStops: seq<string>, names: seq<string>, index: map<string, nat>, counter: nat)
    returns (names': seq<string>, index': map<string, nat>, counter': nat, localToGlobal: map<nat, nat>)
    requires Indexes(index, names) && counter == |names|
    ensures names' == Register(names, localStops) && Indexes(index', names') && counter' == |names'|
    ensures forall q :: q in localToGlobal <==> 0 <= q < |localStops|
    ensures forall q :: q in localToGlobal ==>
              localToGlobal[q] < |names'| && names'[localToGlobal[q]] == localStops[q]
  {
    names', index', counter' := names, index, counter;
    localToGlobal := map[];
    var subStopCounter := 0;
    while subStopCounter < |localStops|
      invariant 0 <= subStopCounter <= |localStops|
      invariant Register(names', localStops[subStopCounter..]) == Register(names, localStops)
      invariant Indexes(index', names') && counter' == |names'|
      invariant forall q :: q in localToGlobal <==> 0 <= q < subStopCounter
      invariant forall q :: q in localToGlobal ==>
                  localToGlobal[q] < |names'| && names'[localToGlobal[q]] == localStops[q]
    {
      var stop := localStops[subStopCounter];
      assert localStops[subStopCounter..][1..] == localStops[subStopCounter + 1..];
      if stop !in index' {
        index' := index'[stop := counter'];
        names' := names' + [stop];
        counter' := counter' + 1;
      }
      localToGlobal := localToGlobal[subStopCounter := index'[stop]];
      subStopCounter := subStopCounter + 1;
    }
  }

  /** The journey loop of one file: every passing renumbered, everything else kept. */
  method RenumberJourneys(c: Connection, localToGlobal: map<nat, nat>, names: seq<string>)
    returns (journeys: seq<Journey>)
    requires StopsIndexed(c)
    requires forall q :: q in localToGlobal <==> 0 <= q < |c.stops|
    requires forall q :: q in localToGlobal ==> localToGlobal[q] < |names| && names[localToGlobal[q]] == c.stops[q]
    ensures ConnectionRenumbered(c, SubConnection(c.operatingPeriods, c.dayTypes, journeys), names)
  {
    journeys := [];
    var ji := 0;
    while ji < |c.journeys|
      invariant 0 <= ji <= |c.journeys|
      invariant |journeys| == ji
      invariant forall j :: 0 <= j < ji ==> JourneyRenumbered(c.journeys[j], journeys[j], c.stops, names)
    {
      var journey := c.journeys[ji];
      var passings := RemapPassings(journey.passings, localToGlobal);
      RemapPassingsRenumbers(journey.passings, localToGlobal, c.stops, names);
      journeys := journeys + [Journey(passings, journey.validFrom, journey.validTo, journey.days)];
      ji := ji + 1;
    }
  }

  /** Registering one more file's names extends the first occurrences of the
      files before it to those of the files up to it, at its end. */
  lemma RegisteredFile(conns: seq<Connection>, ci: nat)
    requires ci < |conns|
    ensures Register(Dedup(AllStops(conns[..ci])), conns[ci].stops) == Dedup(AllStops(conns[..ci + 1]))
    ensures |Dedup(AllStops(conns[..ci]))| <= |Dedup(AllStops(conns[..ci + 1]))|
    ensures Dedup(AllStops(conns[..ci + 1]))[..|Dedup(AllStops(conns[..ci]))|] == Dedup(AllStops(conns[..ci]))
  {
    assert conns[..ci + 1][..ci] == conns[..ci];
    RegisterExtendsDedup(AllStops(conns[..ci]), conns[ci].stops);
  }

  /** The files renumbered so far stay renumbered when the registry grows at its end. */
  lemma RenumberedPrefixGrows(conns: seq<Connection>, subConns: seq<SubConnection>, before: seq<string>, after: seq<string>)
    requires |subConns| == |conns| && |before| <= |after| && after[..|before|] == before
    requires forall i :: 0 <= i < |conns| ==> ConnectionRenumbered(conns[i], subConns[i], before)
    ensures forall i :: 0 <= i < |conns| ==> ConnectionRenumbered(conns[i], subConns[i], after)
  {
    assert before + after[|before|..] == after;
    forall i | 0 <= i < |conns| ensures ConnectionRenumbered(conns[i], subConns[i], after) {
      ConnectionRenumberedGrows(conns[i], subConns[i], before, after[|before|..]);
    }
  }

  /** One pass of the file loop: the file's stops are registered and its
      journeys renumbered; the files before it stay correctly renumbered. */
  method MergeFile(conns: seq<Connection>, ci: nat, names: seq<string>, index: map<string, nat>, counter: nat,
                   subConns: seq<SubConnection>)
    returns (names': seq<string>, index': map<string, nat>, counter': nat, subConns': seq<SubConnection>)
    requires ci < |conns| && StopsIndexed(conns[ci])
    requires names == Dedup(AllStops(conns[..ci])) && Indexes(index, names) && counter == |names|
    requires |subConns| == ci
    requires forall i :: 0 <= i < ci ==> ConnectionRenumbered(conns[i], subConns[i], names)
    ensures names' == Dedup(AllStops(conns[..ci + 1])) && Indexes(index', names') && counter' == |names'|
    ensures |subConns'| == ci + 1
    ensures forall i :: 0 <= i < ci + 1 ==> ConnectionRenumbered(conns[i], subConns'[i], names')
  {
    var connection := conns[ci];
    var localToGlobal;
    names', index', counter', localToGlobal := RegisterStops(connection.stops, names, index, counter);
    RegisteredFile(conns, ci);
    var newJourneys := RenumberJourneys(connection, localToGlobal, names');
    RenumberedPrefixGrows(conns[..ci], subConns, names, names');
    subConns' := subConns + [SubConnection(connection.operatingPeriods, connection.dayTypes, newJourneys)];
  }

  /** `MultiConnection::from`: the deduplicated registry and, per file in input
      order, its calendar and its renumbered journeys. */
  method Merge(conns: seq<Connection>) returns (mc: MultiConnection)
    requires forall i :: 0 <= i < |conns| ==> StopsIndexed(conns[i])
    ensures mc.stops == Dedup(AllStops(conns))
    ensures |mc.connections| == |conns|
    ensures forall i :: 0 <= i < |conns| ==> ConnectionRenumbered(conns[i], mc.connections[i], mc.stops)
  {
    var stopCounter := 0;
    var newStops: seq<string> := [];
    var stopIndex: map<string, nat> := map[];
    var subConns: seq<SubConnection> := [];
    var ci := 0;
    while ci < |conns|
      invariant 0 <= ci <= |conns|
      invariant newStops == Dedup(AllStops(conns[..ci]))
      invariant Indexes(stopIndex, newStops) && stopCounter == |newStops|
      invariant |subConns| == ci
      invariant forall i :: 0 <= i < ci ==> ConnectionRenumbered(conns[i], subConns[i], newStops)
    {
      newStops, stopIndex, stopCounter, subConns := MergeFile(conns, ci, newStops, stopIndex, stopCounter, subConns);
      ci := ci + 1;
    }
    assert conns[..ci] == conns;
    mc := MultiConnection(newStops, subConns);
  }

  /** Corollary: the renumbered passings point at the same stop names, every stop
      of every file is in the registry, and the registry holds nothing else. */
  lemma MergeKeepsNames(conns: seq<Connection>, mc: MultiConnection, i: nat)
    requires mc.stops == Dedup(AllStops(conns))
    requires i < |conns|
    ensures forall k :: 0 <= k < |conns[i].stops| ==> conns[i].stops[k] in mc.stops
  {
    DedupKeepsNamesOnce(AllStops(conns));
    AllStopsHasFile(conns, i);
  }

  lemma {:induction false} AllStopsHasFile(conns: seq<Connection>, i: nat)
    requires i < |conns|
    ensures forall k :: 0 <= k < |conns[i].stops| ==> conns[i].stops[k] in AllStops(conns)
  {
    var n := |conns|;
    var init := conns[..n - 1];
    if i < n - 1 {
      AllStopsHasFile(init, i);
      assert init[i] == conns[i];
    } else {
      forall k | 0 <= k < |conns[i].stops| ensures conns[i].stops[k] in AllStops(conns) {
        assert AllStops(conns)[|AllStops(init)| + k] == conns[i].stops[k];
      }
    }
  }
}
