/**
 * The NeTEx reader's pure helpers and its resolution stage: once the XML events
 * have been collected into string-keyed records, the records are numbered and
 * every reference by identifier is replaced by an index, giving a `Connection`.
 *
 * The records' `HashMap`s are iterated in an unspecified order; the model picks
 * the next key with `:|`, so nothing below depends on which index a name gets,
 * only on the indices being consistent.
 */
module Netex {
  import opened Options
  import opened Ordering
  import opened Timetable

  /** `path_vec_eq`: the open-element path equals the given path. */
  function PathEq(left: seq<string>, right: seq<string>): (eq: bool)
    ensures eq <==> left == right
  {
    |left| == |right| && forall i :: 0 <= i < |left| ==> left[i] == right[i]
  }

  // ---------------------------------------------------------------------------
  // ValidDayBits

  /** The day offsets a `ValidDayBits` text switches on. */
  ghost function DayBits(text: string): set<nat>
  {
    set i: nat | i < |text| && text[i] == '1'
  }

  /** Decoding of the `ValidDayBits` text: bit `i` is set exactly when the `i`-th
      character is `'1'`; every other character leaves it clear. */
  method DecodeDayBits(text: string) returns (bits: set<nat>)
    ensures bits == DayBits(text)
    ensures forall i: nat :: i in bits <==> i < |text| && text[i] == '1'
  {
    var boolVec := seq(|text|, i requires 0 <= i < |text| => text[i] == '1');
    bits := {};
    var i := 0;
    while i < |boolVec|
      invariant 0 <= i <= |boolVec|
      invariant forall k: nat :: k in bits <==> k < i && text[k] == '1'
    {
      if boolVec[i] {
        bits := bits + {i};
      }
      i := i + 1;
    }
  }

  /** The text of `n` days for a set of day offsets. */
  function EncodeDayBits(bits: set<nat>, n: nat): (text: string)
    ensures |text| == n
  {
    seq(n, i requires 0 <= i < n => if i in bits then '1' else '0')
  }

  /** Decoding an encoded set gives back its offsets below the length. */
  lemma DayBitsRoundTrip(bits: set<nat>, n: nat)
    ensures DayBits(EncodeDayBits(bits, n)) == set k | k in bits && k < n
  {
    var text := EncodeDayBits(bits, n);
    forall k: nat ensures k in DayBits(text) <==> k in bits && k < n {
      if k < n {
        assert text[k] == if k in bits then '1' else '0';
      }
    }
  }

  // ---------------------------------------------------------------------------
  // Parsed records, as the XML event loop leaves them

  datatype ParsedOperatingPeriod = ParsedOperatingPeriod(
    fromDate: Option<int>, toDate: Option<int>, dayBits: Option<set<nat>>)

  datatype ParsedPassing = ParsedPassing(stopPoint: Option<string>, departure: Option<int>, arrival: Option<int>)

  datatype ParsedServiceJourney = ParsedServiceJourney(
    validFrom: Option<int>, validTo: Option<int>, dayTypes: seq<string>,
    pattern: Option<string>, passings: seq<ParsedPassing>)

  /** A journey pattern: stop points by `order` attribute, and the scheduled stop
      point each of them refers to. */
  datatype ParsedJourneyPattern = ParsedJourneyPattern(order: map<int, string>, points: map<string, string>)

  /** Everything the event loop collects from one file. */
  datatype ParsedFeed = ParsedFeed(
    stopNames: map<string, string>,
    dayTypes: seq<string>,
    operatingPeriods: map<string, ParsedOperatingPeriod>,
    dayTypeToPeriod: map<string, string>,
    journeyPatterns: map<string, ParsedJourneyPattern>,
    serviceJourneys: seq<ParsedServiceJourney>)

  predicate PeriodComplete(p: ParsedOperatingPeriod)
  {
    p.fromDate.Some? && p.toDate.Some? && p.dayBits.Some?
  }

  function UnwrapPeriod(p: ParsedOperatingPeriod): OperatingPeriod
    requires PeriodComplete(p)
  {
    OperatingPeriod(p.fromDate.value, p.toDate.value, p.dayBits.value)
  }

  /** The arrival and departure recorded for each stop point of a journey; when
      a stop point is listed twice, the later passing wins. */
  function PassingTimes(ps: seq<ParsedPassing>): (times: map<string, (Option<int>, Option<int>)>)
    requires forall k :: 0 <= k < |ps| ==> ps[k].stopPoint.Some?
    ensures forall sp :: sp in times <==> exists k :: 0 <= k < |ps| && ps[k].stopPoint == Some(sp)
  {
    if ps == [] then map[]
    else
      var last := ps[|ps| - 1];
      var earlier := PassingTimes(ps[..|ps| - 1]);
      assert forall k :: 0 <= k < |ps| - 1 ==> ps[..|ps| - 1][k] == ps[k];
      earlier[last.stopPoint.value := (last.arrival, last.departure)]
  }

  /** The times of a stop point are those of the last passing that names it. */
  lemma {:induction false} LastPassingWins(ps: seq<ParsedPassing>, k: nat)
    requires forall m :: 0 <= m < |ps| ==> ps[m].stopPoint.Some?
    requires k < |ps|
    requires forall m :: k < m < |ps| ==> ps[m].stopPoint != ps[k].stopPoint
    ensures ps[k].stopPoint.value in PassingTimes(ps)
    ensures PassingTimes(ps)[ps[k].stopPoint.value] == (ps[k].arrival, ps[k].departure)
  {
    if k < |ps| - 1 {
      var init := ps[..|ps| - 1];
      assert init[k] == ps[k];
      LastPassingWins(init, k);
    }
  }

  // ---------------------------------------------------------------------------
  // Preconditions: what the resolution stage unwraps or looks up

  /** Every stop point of the pattern has a scheduled stop point with a name. */
  predicate PatternResolvable(p: ParsedJourneyPattern, stopIndex: map<string, nat>)
  {
    forall key :: key in p.order ==> p.order[key] in p.points && p.points[p.order[key]] in stopIndex
  }

  /** The journey has its dates, a known pattern, declared day types, named
      passings, and a passing for every stop point of its pattern. */
  predicate JourneyResolvable(f: ParsedFeed, pj: ParsedServiceJourney)
  {
    && pj.validFrom.Some? && pj.validTo.Some?
    && pj.pattern.Some? && pj.pattern.value in f.journeyPatterns
    && (forall k :: 0 <= k < |pj.dayTypes| ==> pj.dayTypes[k] in f.dayTypes)
    && (forall k :: 0 <= k < |pj.passings| ==> pj.passings[k].stopPoint.Some?)
    && forall key :: key in f.journeyPatterns[pj.pattern.value].order ==>
         f.journeyPatterns[pj.pattern.value].order[key] in PassingTimes(pj.passings)
  }

  /** Every reference the resolution stage follows resolves; otherwise the source
      panics on an `unwrap` or a map index. */
  predicate Resolvable(f: ParsedFeed)
  {
    && (forall n :: n in f.operatingPeriods ==> PeriodComplete(f.operatingPeriods[n]))
    && (forall i :: 0 <= i < |f.dayTypes| && f.dayTypes[i] in f.dayTypeToPeriod ==>
          f.dayTypeToPeriod[f.dayTypes[i]] in f.operatingPeriods)
    && (forall n :: n in f.journeyPatterns ==>
          var p := f.journeyPatterns[n];
          forall key :: key in p.order ==> p.order[key] in p.points && p.points[p.order[key]] in f.stopNames)
    && (forall i :: 0 <= i < |f.serviceJourneys| ==> JourneyResolvable(f, f.serviceJourneys[i]))
  }

  // ---------------------------------------------------------------------------
  // The stages

  ghost predicate Injective<K>(index: map<K, nat>)
  {
    forall a, b :: a in index && b in index && a != b ==> index[a] != index[b]
  }

  /** Numbering the entries of a `HashMap` in its iteration order: each key gets
      the position at which its value is pushed. */
  method Enumerate<V>(m: map<string, V>) returns (values: seq<V>, index: map<string, nat>)
    ensures index.Keys == m.Keys && |values| == |m|
    ensures forall n :: n in index ==> index[n] < |values| && values[index[n]] == m[n]
    ensures Injective(index)
  {
    values, index := [], map[];
    var rest := m.Keys;
    while rest != {}
      invariant rest <= m.Keys
      invariant index.Keys == m.Keys - rest
      invariant |values| + |rest| == |m.Keys|
      invariant forall n :: n in index ==> index[n] < |values| && values[index[n]] == m[n]
      invariant Injective(index)
      decreases |rest|
    {
      ghost var some := Pick(rest);
      var name :| name in rest;
      index := index[name := |values|];
      values := values + [m[name]];
      rest := rest - {name};
    }
  }

  /** `k` is the position of the last declaration of `d`: the day-type index
      overwrites earlier declarations of the same name. */
  predicate LastDeclared(declared: seq<string>, d: string, k: nat)
  {
    k < |declared| && declared[k] == d && forall m :: k < m < |declared| ==> declared[m] != d
  }
  /** At most one position is the last declaration of a name, so a resolved day
      index is fixed by the name alone. */
  lemma LastDeclaredUnique(declared: seq<string>, d: string, k1: nat, k2: nat)
    requires LastDeclared(declared, d, k1) && LastDeclared(declared, d, k2)
    ensures k1 == k2
  {
  }

  /** A day type declared twice resolves to its second declaration. */
  lemma RedeclaredDayTypeUsesLast(k: nat)
    ensures LastDeclared(["A", "A"], "A", k) <==> k == 1
  {
    var declared := ["A", "A"];
    if k == 0 {
      assert declared[1] == "A";
      assert !LastDeclared(declared, "A", 0);
    } else if k == 1 {
      assert declared[1] == "A";
    }
  }


  /** The day-type loop: one entry per declared day type, in declaration order,
      holding the index of its assigned period if it has one. A day type declared
      twice is looked up at its later position. */
  method ResolveDayTypes(dayTypes: seq<string>, dayTypeToPeriod: map<string, string>, periodIndex: map<string, nat>)
    returns (newDayTypes: seq<Option<nat>>, dayIndex: map<string, nat>)
    requires forall i :: 0 <= i < |dayTypes| && dayTypes[i] in dayTypeToPeriod ==>
               dayTypeToPeriod[dayTypes[i]] in periodIndex
    ensures |newDayTypes| == |dayTypes|
    ensures forall i :: 0 <= i < |dayTypes| ==>
              newDayTypes[i] == if dayTypes[i] in dayTypeToPeriod
                                then Some(periodIndex[dayTypeToPeriod[dayTypes[i]]]) else None
    ensures forall d :: d in dayIndex <==> d in dayTypes
    ensures forall d :: d in dayIndex ==>
              dayIndex[d] < |dayTypes| && dayTypes[dayIndex[d]] == d
              && forall k :: dayIndex[d] < k < |dayTypes| ==> dayTypes[k] != d
  {
    newDayTypes, dayIndex := [], map[];
    var i := 0;
    while i < |dayTypes|
      invariant 0 <= i <= |dayTypes| && |newDayTypes| == i
      invariant forall k :: 0 <= k < i ==>
                  newDayTypes[k] == if dayTypes[k] in dayTypeToPeriod
                                    then Some(periodIndex[dayTypeToPeriod[dayTypes[k]]]) else None
      invariant forall d :: d in dayIndex <==> d in dayTypes[..i]
      invariant forall d :: d in dayIndex ==>
                  dayIndex[d] < i && dayTypes[dayIndex[d]] == d
                  && forall k :: dayIndex[d] < k < i ==> dayTypes[k] != d
    {
      var dayType := dayTypes[i];
      assert dayTypes[..i + 1] == dayTypes[..i] + [dayType];
      dayIndex := dayIndex[dayType := |newDayTypes|];
      if dayType in dayTypeToPeriod {
        newDayTypes := newDayTypes + [Some(periodIndex[dayTypeToPeriod[dayType]])];
      } else {
        newDayTypes := newDayTypes + [None];
      }
      i := i + 1;
    }
    assert dayTypes[..i] == dayTypes;
  }

  /** A resolved pattern lists, in ascending `order`, each stop point with the
      index of its scheduled stop point's name. */
  predicate PatternResolved(p: ParsedJourneyPattern, stopIndex: map<string, nat>, sub: seq<(string, nat)>)
    requires PatternResolvable(p, stopIndex)
  {
    var keys := Ascending(p.order.Keys);
    && |sub| == |keys|
    && forall k :: 0 <= k < |sub| ==>
         sub[k] == (p.order[keys[k]], stopIndex[p.points[p.order[keys[k]]]])
  }

  /** The resolved form of one pattern. */
  function ResolvedPattern(p: ParsedJourneyPattern, stopIndex: map<string, nat>): (sub: seq<(string, nat)>)
    requires PatternResolvable(p, stopIndex)
    ensures PatternResolved(p, stopIndex, sub)
  {
    var keys := Ascending(p.order.Keys);
    assert forall k :: 0 <= k < |keys| ==> keys[k] in p.order;
    seq(|keys|, k requires 0 <= k < |keys| => (p.order[keys[k]], stopIndex[p.points[p.order[keys[k]]]]))
  }

  /** The inner pattern loop: the `BTreeMap` walked by ascending key. */
  method ResolvePattern(p: ParsedJourneyPattern, stopIndex: map<string, nat>) returns (sub: seq<(string, nat)>)
    requires PatternResolvable(p, stopIndex)
    ensures sub == ResolvedPattern(p, stopIndex)
  {
    var keys := Ascending(p.order.Keys);
    assert forall m :: 0 <= m < |keys| ==> keys[m] in p.order;
    sub := [];
    var k := 0;
    while k < |keys|
      invariant 0 <= k <= |keys| && |sub| == k
      invariant forall m :: 0 <= m < k ==> sub[m] == (p.order[keys[m]], stopIndex[p.points[p.order[keys[m]]]])
    {
      var stopPoint := p.order[keys[k]];
      ghost var prev := sub;
      sub := sub + [(stopPoint, stopIndex[p.points[stopPoint]])];
      assert forall m :: 0 <= m < k ==> sub[m] == prev[m];
      k := k + 1;
    }
  }

  /** The pattern loop: every pattern resolved, then numbered in the map's order. */
  method ResolvePatterns(patterns: map<string, ParsedJourneyPattern>, stopIndex: map<string, nat>)
    returns (newPatterns: seq<seq<(string, nat)>>, patternIndex: map<string, nat>)
    requires forall n :: n in patterns ==> PatternResolvable(patterns[n], stopIndex)
    ensures patternIndex.Keys == patterns.Keys && Injective(patternIndex)
    ensures forall n :: n in patternIndex ==>
              patternIndex[n] < |newPatterns| && newPatterns[patternIndex[n]] == ResolvedPattern(patterns[n], stopIndex)
  {
    var resolved: map<string, seq<(string, nat)>> := map[];
    var rest := patterns.Keys;
    while rest != {}
      invariant rest <= patterns.Keys
      invariant forall n :: n in resolved <==> n in patterns && n !in rest
      invariant forall n :: n in resolved ==> resolved[n] == ResolvedPattern(patterns[n], stopIndex)
      decreases |rest|
    {
      ghost var some := Pick(rest);
      var name :| name in rest;
      var sub := ResolvePattern(patterns[name], stopIndex);
      resolved := resolved[name := sub];
      rest := rest - {name};
    }
    assert resolved.Keys == patterns.Keys;
    newPatterns, patternIndex := Enumerate(resolved);
  }

  /** The passings follow the pattern: one per stop point, in ascending `order`,
      each with the stop's index and the point's times. */
  predicate FollowsPattern(p: ParsedJourneyPattern, stopIndex: map<string, nat>,
                           times: map<string, (Option<int>, Option<int>)>, passings: seq<Passing>)
    requires PatternResolvable(p, stopIndex)
    requires forall key :: key in p.order ==> p.order[key] in times
  {
    var keys := Ascending(p.order.Keys);
    assert forall k :: 0 <= k < |keys| ==> keys[k] in p.order;
    && |passings| == |keys|
    && forall k :: 0 <= k < |keys| ==>
         var point := p.order[keys[k]];
         passings[k] == Passing(stopIndex[p.points[point]], times[point].0, times[point].1)
  }

  /** The resolved journey keeps its dates, refers to day types by position, and
      has one passing per stop point of its pattern, in ascending `order`, each
      with the stop's index and the times of the passing that names the point. */
  predicate JourneyResolved(f: ParsedFeed, pj: ParsedServiceJourney, j: Journey, stopIndex: map<string, nat>)
    requires JourneyResolvable(f, pj)
    requires forall n :: n in f.journeyPatterns ==> PatternResolvable(f.journeyPatterns[n], stopIndex)
  {
    var p := f.journeyPatterns[pj.pattern.value];
    assert PatternResolvable(p, stopIndex);
    && j.validFrom == pj.validFrom.value && j.validTo == pj.validTo.value
    && |j.days| == |pj.dayTypes|
    && (forall k :: 0 <= k < |j.days| ==> LastDeclared(f.dayTypes, pj.dayTypes[k], j.days[k]))
    && FollowsPattern(p, stopIndex, PassingTimes(pj.passings), j.passings)
  }

  /** Walking the resolved pattern and looking up each point's times follows the pattern. */
  lemma PassingsFollowPattern(p: ParsedJourneyPattern, stopIndex: map<string, nat>, sub: seq<(string, nat)>,
                              times: map<string, (Option<int>, Option<int>)>, passings: seq<Passing>)
    requires PatternResolvable(p, stopIndex) && PatternResolved(p, stopIndex, sub)
    requires forall key :: key in p.order ==> p.order[key] in times
    requires |passings| == |sub|
    requires forall k :: 0 <= k < |sub| ==> sub[k].0 in times
    requires forall k :: 0 <= k < |sub| ==>
               passings[k] == Passing(sub[k].1, times[sub[k].0].0, times[sub[k].0].1)
    ensures FollowsPattern(p, stopIndex, times, passings)
  {
  }

  /** Every point of the resolved pattern has times. */
  lemma PatternPointsTimed(p: ParsedJourneyPattern, stopIndex: map<string, nat>, sub: seq<(string, nat)>,
                           times: map<string, (Option<int>, Option<int>)>)
    requires PatternResolvable(p, stopIndex) && PatternResolved(p, stopIndex, sub)
    requires forall key :: key in p.order ==> p.order[key] in times
    ensures forall k :: 0 <= k < |sub| ==> sub[k].0 in times
  {
    var keys := Ascending(p.order.Keys);
    forall k | 0 <= k < |sub| ensures sub[k].0 in times {
      assert keys[k] in p.order;
    }
  }

  /** The day types of a journey, by position in the declaration order. */
  method DayIndices(dayTypes: seq<string>, declared: seq<string>, dayIndex: map<string, nat>) returns (days: seq<nat>)
    requires forall k :: 0 <= k < |dayTypes| ==> dayTypes[k] in dayIndex
    requires forall d :: d in dayIndex ==> LastDeclared(declared, d, dayIndex[d])
    ensures |days| == |dayTypes|
    ensures forall k :: 0 <= k < |days| ==> days[k] == dayIndex[dayTypes[k]]
    ensures forall k :: 0 <= k < |days| ==> LastDeclared(declared, dayTypes[k], days[k])
  {
    days := [];
    var k := 0;
    while k < |dayTypes|
      invariant 0 <= k <= |dayTypes| && |days| == k
      invariant forall m :: 0 <= m < k ==> days[m] == dayIndex[dayTypes[m]]
    {
      days := days + [dayIndex[dayTypes[k]]];
      k := k + 1;
    }
  }

  /** The passings of a journey keyed by stop point, inserted in document order. */
  method CollectPassingTimes(ps: seq<ParsedPassing>) returns (times: map<string, (Option<int>, Option<int>)>)
    requires forall k :: 0 <= k < |ps| ==> ps[k].stopPoint.Some?
    ensures times == PassingTimes(ps)
  {
    times := map[];
    var k := 0;
    while k < |ps|
      invariant 0 <= k <= |ps|
      invariant times == PassingTimes(ps[..k])
    {
      var parsed := ps[k];
      assert ps[..k + 1][..k] == ps[..k];
      times := times[parsed.stopPoint.value := (parsed.arrival, parsed.departure)];
      k := k + 1;
    }
    assert ps[..k] == ps;
  }

  /** One passing per stop point of a resolved pattern, with that point's times. */
  method PassingsAlong(sub: seq<(string, nat)>, times: map<string, (Option<int>, Option<int>)>)
    returns (passings: seq<Passing>)
    requires forall k :: 0 <= k < |sub| ==> sub[k].0 in times
    ensures |passings| == |sub|
    ensures forall k :: 0 <= k < |sub| ==>
              passings[k] == Passing(sub[k].1, times[sub[k].0].0, times[sub[k].0].1)
  {
    passings := [];
    var k := 0;
    while k < |sub|
      invariant 0 <= k <= |sub| && |passings| == k
      invariant forall m :: 0 <= m < k ==>
                  passings[m] == Passing(sub[m].1, times[sub[m].0].0, times[sub[m].0].1)
    {
      var (schedPoint, stop) := sub[k];
      passings := passings + [Passing(stop, times[schedPoint].0, times[schedPoint].1)];
      k := k + 1;
    }
  }

  /** The journey loop body: day types by index, the passings keyed by stop
      point, then one passing per stop point of the pattern. */
  method ResolveJourney(f: ParsedFeed, pj: ParsedServiceJourney, dayIndex: map<string, nat>,
                        stopIndex: map<string, nat>, newPatterns: seq<seq<(string, nat)>>,
                        patternIndex: map<string, nat>)
    returns (j: Journey)
    requires JourneyResolvable(f, pj)
    requires forall n :: n in f.journeyPatterns ==> PatternResolvable(f.journeyPatterns[n], stopIndex)
    requires forall d :: d in dayIndex <==> d in f.dayTypes
    requires forall d :: d in dayIndex ==> LastDeclared(f.dayTypes, d, dayIndex[d])
    requires patternIndex.Keys == f.journeyPatterns.Keys
    requires forall n :: n in patternIndex ==>
               patternIndex[n] < |newPatterns|
               && newPatterns[patternIndex[n]] == ResolvedPattern(f.journeyPatterns[n], stopIndex)
    ensures JourneyResolved(f, pj, j, stopIndex)
  {
    var p := f.journeyPatterns[pj.pattern.value];
    var sub := newPatterns[patternIndex[pj.pattern.value]];
    var days := DayIndices(pj.dayTypes, f.dayTypes, dayIndex);
    var times := CollectPassingTimes(pj.passings);
    PatternPointsTimed(p, stopIndex, sub, times);
    var passings := PassingsAlong(sub, times);
    PassingsFollowPattern(p, stopIndex, sub, times, passings);
    j := Journey(passings, pj.validFrom.value, pj.validTo.value, days);
  }

  /** The journey loop: every journey resolved, in document order. */
  method ResolveJourneys(f: ParsedFeed, dayIndex: map<string, nat>,
                         stopIndex: map<string, nat>, newPatterns: seq<seq<(string, nat)>>,
                         patternIndex: map<string, nat>)
    returns (journeys: seq<Journey>)
    requires forall i :: 0 <= i < |f.serviceJourneys| ==> JourneyResolvable(f, f.serviceJourneys[i])
    requires forall n :: n in f.journeyPatterns ==> PatternResolvable(f.journeyPatterns[n], stopIndex)
    requires forall d :: d in dayIndex <==> d in f.dayTypes
    requires forall d :: d in dayIndex ==> LastDeclared(f.dayTypes, d, dayIndex[d])
    requires patternIndex.Keys == f.journeyPatterns.Keys
    requires forall n :: n in patternIndex ==>
               patternIndex[n] < |newPatterns|
               && newPatterns[patternIndex[n]] == ResolvedPattern(f.journeyPatterns[n], stopIndex)
    ensures |journeys| == |f.serviceJourneys|
    ensures forall i :: 0 <= i < |f.serviceJourneys| ==> JourneyResolved(f, f.serviceJourneys[i], journeys[i], stopIndex)
  {
    journeys := [];
    var i := 0;
    while i < |f.serviceJourneys|
      invariant 0 <= i <= |f.serviceJourneys| && |journeys| == i
      invariant forall m :: 0 <= m < i ==> JourneyResolved(f, f.serviceJourneys[m], journeys[m], stopIndex)
    {
      var j := ResolveJourney(f, f.serviceJourneys[i], dayIndex, stopIndex, newPatterns, patternIndex);
      ghost var prev := journeys;
      journeys := journeys + [j];
      assert forall m :: 0 <= m < i ==> journeys[m] == prev[m];
      i := i + 1;
    }
  }

  /** A resolved journey refers only to stops that were numbered. */
  lemma ResolvedStopsInRange(f: ParsedFeed, pj: ParsedServiceJourney, j: Journey, stopIndex: map<string, nat>, n: nat)
    requires JourneyResolvable(f, pj)
    requires forall p :: p in f.journeyPatterns ==> PatternResolvable(f.journeyPatterns[p], stopIndex)
    requires JourneyResolved(f, pj, j, stopIndex)
    requires forall sp :: sp in stopIndex ==> stopIndex[sp] < n
    ensures forall k :: 0 <= k < |j.passings| ==> j.passings[k].stopPoint < n
  {
    var p := f.journeyPatterns[pj.pattern.value];
    var keys := Ascending(p.order.Keys);
    assert PatternResolvable(p, stopIndex);
    forall k | 0 <= k < |j.passings| ensures j.passings[k].stopPoint < n {
      assert keys[k] in p.order;
      assert p.points[p.order[keys[k]]] in stopIndex;
    }
  }

  /** The calendar half of the post-pass: periods are numbered, then every day
      type refers to its period by number. */
  method ResolveCalendar(f: ParsedFeed)
    returns (newPeriods: seq<OperatingPeriod>, newDayTypes: seq<Option<nat>>,
             periodIndex: map<string, nat>, dayIndex: map<string, nat>)
    requires Resolvable(f)
    ensures periodIndex.Keys == f.operatingPeriods.Keys && Injective(periodIndex)
    ensures |newPeriods| == |f.operatingPeriods|
    ensures forall n :: n in periodIndex ==>
              periodIndex[n] < |newPeriods| && newPeriods[periodIndex[n]] == UnwrapPeriod(f.operatingPeriods[n])
    ensures |newDayTypes| == |f.dayTypes|
    ensures forall i :: 0 <= i < |f.dayTypes| ==>
              newDayTypes[i] == if f.dayTypes[i] in f.dayTypeToPeriod
                                then Some(periodIndex[f.dayTypeToPeriod[f.dayTypes[i]]]) else None
    ensures forall d :: 0 <= d < |newDayTypes| && newDayTypes[d].Some? ==> newDayTypes[d].value < |newPeriods|
    ensures forall d :: d in dayIndex <==> d in f.dayTypes
    ensures forall d :: d in dayIndex ==> LastDeclared(f.dayTypes, d, dayIndex[d])
  {
    var periods := map n | n in f.operatingPeriods :: UnwrapPeriod(f.operatingPeriods[n]);
    newPeriods, periodIndex := Enumerate(periods);
    assert |periods| == |f.operatingPeriods| by {
      assert periods.Keys == f.operatingPeriods.Keys;
    }
    newDayTypes, dayIndex := ResolveDayTypes(f.dayTypes, f.dayTypeToPeriod, periodIndex);
  }

  /** Resolved journeys refer to day types by position, so their indices are in range. */
  lemma ResolvedDaysInRange(f: ParsedFeed, journeys: seq<Journey>, stopIndex: map<string, nat>)
    requires forall i :: 0 <= i < |f.serviceJourneys| ==> JourneyResolvable(f, f.serviceJourneys[i])
    requires forall n :: n in f.journeyPatterns ==> PatternResolvable(f.journeyPatterns[n], stopIndex)
    requires |journeys| == |f.serviceJourneys|
    requires forall i :: 0 <= i < |f.serviceJourneys| ==> JourneyResolved(f, f.serviceJourneys[i], journeys[i], stopIndex)
    ensures forall j, i :: 0 <= j < |journeys| && 0 <= i < |journeys[j].days| ==> journeys[j].days[i] < |f.dayTypes|
  {
    forall j, i | 0 <= j < |journeys| && 0 <= i < |journeys[j].days| ensures journeys[j].days[i] < |f.dayTypes| {
      assert JourneyResolved(f, f.serviceJourneys[j], journeys[j], stopIndex);
    }
  }

  /** Resolved journeys refer only to numbered stops. */
  lemma AllResolvedStopsInRange(f: ParsedFeed, journeys: seq<Journey>, stopIndex: map<string, nat>, n: nat)
    requires forall i :: 0 <= i < |f.serviceJourneys| ==> JourneyResolvable(f, f.serviceJourneys[i])
    requires forall p :: p in f.journeyPatterns ==> PatternResolvable(f.journeyPatterns[p], stopIndex)
    requires |journeys| == |f.serviceJourneys|
    requires forall i :: 0 <= i < |f.serviceJourneys| ==> JourneyResolved(f, f.serviceJourneys[i], journeys[i], stopIndex)
    requires forall sp :: sp in stopIndex ==> stopIndex[sp] < n
    ensures forall j, k :: 0 <= j < |journeys| && 0 <= k < |journeys[j].passings| ==> journeys[j].passings[k].stopPoint < n
  {
    forall j | 0 <= j < |journeys|
      ensures forall k :: 0 <= k < |journeys[j].passings| ==> journeys[j].passings[k].stopPoint < n
    {
      ResolvedStopsInRange(f, f.serviceJourneys[j], journeys[j], stopIndex, n);
    }
  }

  /** `parse_netex` after its event loop: periods, day types, stops and patterns
      are numbered, then every journey is resolved against those numbers. */
  method ResolveFeed(f: ParsedFeed) returns (c: Connection, ghost periodIndex: map<string, nat>,
                                            ghost stopIndex: map<string, nat>)
    requires Resolvable(f)
    ensures CalendarIndexed(c.operatingPeriods, c.dayTypes, c.journeys)
    ensures forall j, k :: 0 <= j < |c.journeys| && 0 <= k < |c.journeys[j].passings| ==>
              c.journeys[j].passings[k].stopPoint < |c.stops|
    ensures periodIndex.Keys == f.operatingPeriods.Keys && Injective(periodIndex)
    ensures |c.operatingPeriods| == |f.operatingPeriods|
    ensures forall n :: n in periodIndex ==>
              periodIndex[n] < |c.operatingPeriods| && c.operatingPeriods[periodIndex[n]] == UnwrapPeriod(f.operatingPeriods[n])
    ensures stopIndex.Keys == f.stopNames.Keys && Injective(stopIndex) && |c.stops| == |f.stopNames|
    ensures forall sp :: sp in stopIndex ==> stopIndex[sp] < |c.stops| && c.stops[stopIndex[sp]] == f.stopNames[sp]
    ensures |c.dayTypes| == |f.dayTypes|
    ensures forall i :: 0 <= i < |f.dayTypes| ==>
              c.dayTypes[i] == if f.dayTypes[i] in f.dayTypeToPeriod
                               then Some(periodIndex[f.dayTypeToPeriod[f.dayTypes[i]]]) else None
    ensures |c.journeys| == |f.serviceJourneys|
    ensures forall n :: n in f.journeyPatterns ==> PatternResolvable(f.journeyPatterns[n], stopIndex)
    ensures forall i :: 0 <= i < |f.serviceJourneys| ==> JourneyResolved(f, f.serviceJourneys[i], c.journeys[i], stopIndex)
  {
    var newPeriods, newDayTypes, periodIdx, dayIndex := ResolveCalendar(f);
    periodIndex := periodIdx;
    var newStops, stopIdx := Enumerate(f.stopNames);
    stopIndex := stopIdx;
    var newPatterns, patternIndex := ResolvePatterns(f.journeyPatterns, stopIdx);
    var newJourneys := ResolveJourneys(f, dayIndex, stopIdx, newPatterns, patternIndex);
    ResolvedDaysInRange(f, newJourneys, stopIdx);
    AllResolvedStopsInRange(f, newJourneys, stopIdx, |newStops|);
    c := Connection(newPeriods, newDayTypes, newStops, newJourneys);
  }
}
