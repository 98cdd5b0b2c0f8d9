/**
 * Switching seasons of a Sonarr series to monitored (internal/arr/sonarr_seasons.go):
 * read the series, change flags in the decoded copy, write the whole of it back
 * and search what is newly wanted.
 */
module MonitorSeasons {
  import opened Wrappers
  import opened SortedInts

  /** A JSON value, as far as the code looks into it; Raw is text it carries along unread. */
  datatype Value = Null | Bool(on: bool) | Int(n: int) | Raw(text: string)

  type Season = map<string, Value>

  /** A field of a series. An element of a JSON array of seasons may be null. */
  datatype Field = Plain(value: Value) | Seasons(list: seq<Option<Season>>)

  type Series = map<string, Field>

  datatype Document = NotObject | Malformed | Object(series: Series)

  datatype MonitorError = InvalidId | Unavailable | BadSeries | BadSeasons

  datatype MonitorResult = MonitorResult(monitored: seq<int>, missing: seq<int>, searched: seq<int>, searchFailed: bool)

  datatype Command = SeasonSearch(season: int, ok: bool)

  // ------------------------------------------------------ what is decoded

  /** json.Unmarshal into an int: a missing field and any other shape fail, null leaves 0. */
  function Number(se: Option<Season>): Option<int> {
    if se.None? || "seasonNumber" !in se.value then None
    else match se.value["seasonNumber"]
      case Int(n) => Some(n)
      case Null => Some(0)
      case _ => None
  }

  /** json.Unmarshal into a bool, its error ignored. */
  predicate SeasonOn(se: Option<Season>) {
    se.Some? && "monitored" in se.value && se.value["monitored"].Bool? && se.value["monitored"].on
  }

  predicate SeriesOn(s: Series) {
    "monitored" in s && s["monitored"].Plain? && s["monitored"].value.Bool? && s["monitored"].value.on
  }

  predicate HasSeasons(s: Series) {
    "seasons" !in s || s["seasons"].Seasons? || s["seasons"].value.Null?
  }

  function SeasonsOf(s: Series): seq<Option<Season>> {
    if "seasons" in s && s["seasons"].Seasons? then s["seasons"].list else []
  }

  // ---------------------------------------------------- what is asked for

  /** An empty request means every season but the specials. */
  predicate Requested(wanted: seq<int>, n: int) {
    (wanted == [] && n > 0) || n in wanted
  }

  predicate Target(wanted: seq<int>, se: Option<Season>) {
    Number(se).Some? && Requested(wanted, Number(se).value)
  }

  /** The numbers of the requested seasons, in the series' order; of the unmonitored ones only if `off`. */
  function Numbers(list: seq<Option<Season>>, wanted: seq<int>, off: bool): seq<int> {
    if list == [] then []
    else
      var rest := Numbers(list[1..], wanted, off);
      if Target(wanted, list[0]) && !(off && SeasonOn(list[0])) then [Number(list[0]).value] + rest else rest
  }

  /** Every requested season the series has is monitored, and so is the series if it has one. */
  ghost predicate AllOn(s: Series, wanted: seq<int>) {
    && (forall se <- SeasonsOf(s) :: Target(wanted, se) ==> SeasonOn(se))
    && ((exists se :: se in SeasonsOf(s) && Target(wanted, se)) ==> SeriesOn(s))
  }

  ghost predicate OnlyFlagChanged(before: Option<Season>, after: Option<Season>) {
    if before.None? then after.None?
    else after.Some? && after.value - {"monitored"} == before.value - {"monitored"}
  }

  /** Only monitored flags differ: requested seasons' and, when one exists, the series'. */
  ghost predicate OnlyFlagsChanged(before: Series, after: Series, wanted: seq<int>) {
    && after - {"monitored", "seasons"} == before - {"monitored", "seasons"}
    && ("seasons" in after <==> "seasons" in before)
    && |SeasonsOf(after)| == |SeasonsOf(before)|
    && (forall i :: 0 <= i < |SeasonsOf(before)| ==> OnlyFlagChanged(SeasonsOf(before)[i], SeasonsOf(after)[i]))
    && (forall i :: 0 <= i < |SeasonsOf(before)| && !Target(wanted, SeasonsOf(before)[i]) ==> SeasonsOf(after)[i] == SeasonsOf(before)[i])
    && ((forall se <- SeasonsOf(before) :: !Target(wanted, se)) ==> after == before)
  }

  /** The seasons asked for by number that the series does not have, each once, in ascending order. */
  ghost predicate IsMissing(s: Series, wanted: seq<int>, missing: seq<int>) {
    && (forall i, j :: 0 <= i < j < |missing| ==> missing[i] < missing[j])
    && forall n :: n in missing <==> n in wanted && forall se <- SeasonsOf(s) :: Number(se) != Some(n)
  }

  // -------------------------------------------------------------- Sonarr

  /** A failing write changed nothing, or everything with the reply lost. */
  datatype PutFate = Accepted | NotDone | ReplyLost

  /** How the calls to a Sonarr will go; sends is by the command's place among all commands. */
  datatype Luck = Luck(gets: bool, put: PutFate, sends: nat -> bool)

  /** A Sonarr instance with the series. */
  class Sonarr {
    var document: Document
    var puts: nat
    var commands: seq<Command>
    const luck: Luck

    constructor (document: Document, luck: Luck)
      ensures this.document == document && puts == 0 && commands == [] && this.luck == luck
    {
      this.document, this.luck := document, luck;
      puts := 0;
      commands := [];
    }

    method Get() returns (d: Option<Document>)
      ensures d == if luck.gets then Some(document) else None
    {
      d := if luck.gets then Some(document) else None;
    }

    method Put(s: Series) returns (ok: bool)
      modifies this`document, this`puts
      ensures puts == old(puts) + 1 && (ok <==> luck.put.Accepted?)
      ensures document == if luck.put.NotDone? then old(document) else Object(s)
    {
      puts := puts + 1;
      if !luck.put.NotDone? {
        document := Object(s);
      }
      ok := luck.put.Accepted?;
    }

    method SendSearch(n: int) returns (ok: bool)
      modifies this`commands
      ensures commands == old(commands) + [SeasonSearch(n, ok)] && ok == luck.sends(|old(commands)|)
    {
      ok := luck.sends(|commands|);
      commands := commands + [SeasonSearch(n, ok)];
    }
  }

  /** The accepted flag of each command from the mark on is the one that was due at its place. */
  ghost predicate Answered(sonarr: Sonarr, mark: nat)
    reads sonarr
  {
    forall k :: mark <= k < |sonarr.commands| ==> sonarr.commands[k].ok == sonarr.luck.sends(k)
  }

  // ---------------------------------------------------------- the operation

  /** The seasons commands were sent for, accepted or not. */
  function Asked(commands: seq<Command>): seq<int> {
    seq(|commands|, i requires 0 <= i < |commands| => commands[i].season)
  }

  /** The seasons whose search was accepted. */
  function Searched(commands: seq<Command>): seq<int> {
    if commands == [] then [] else (if commands[0].ok then [commands[0].season] else []) + Searched(commands[1..])
  }

  lemma {:induction false} SearchedAppend(commands: seq<Command>, c: Command)
    ensures Searched(commands + [c]) == Searched(commands) + if c.ok then [c.season] else []
  {
    if commands != [] {
      assert (commands + [c])[1..] == commands[1..] + [c];
      SearchedAppend(commands[1..], c);
    } else {
      assert (commands + [c])[1..] == [];
    }
  }

  lemma {:induction false} NumbersAppend(list: seq<Option<Season>>, se: Option<Season>, wanted: seq<int>, off: bool)
    ensures Numbers(list + [se], wanted, off) ==
            Numbers(list, wanted, off) + if Target(wanted, se) && !(off && SeasonOn(se)) then [Number(se).value] else []
  {
    if list != [] {
      assert (list + [se])[1..] == list[1..] + [se];
      NumbersAppend(list[1..], se, wanted, off);
    } else {
      assert (list + [se])[1..] == [];
    }
  }

  lemma {:induction false} NoNumbers(list: seq<Option<Season>>, wanted: seq<int>, off: bool)
    ensures Numbers(list, wanted, off) == [] <==> forall se <- list :: Target(wanted, se) ==> off && SeasonOn(se)
  {
    if list != [] {
      assert list == [list[0]] + list[1..];
      NoNumbers(list[1..], wanted, off);
    }
  }

  /** The loop over the decoded seasons: switch the requested ones on and note what to report and to search. */
  method SwitchOn(before: seq<Option<Season>>, wanted: seq<int>, seriesOn: bool)
    returns (list: seq<Option<Season>>, have: set<int>, monitored: seq<int>, search: seq<int>)
    ensures |list| == |before|
    ensures forall i :: 0 <= i < |before| ==>
              list[i] == if Target(wanted, before[i]) && !SeasonOn(before[i]) then Some(before[i].value["monitored" := Bool(true)]) else before[i]
    ensures forall n :: n in have <==> exists se :: se in before && Number(se) == Some(n)
    ensures monitored == Numbers(before, wanted, true) && search == Numbers(before, wanted, seriesOn)
  {
    list := before;
    have, monitored, search := {}, [], [];
    var i := 0;
    while i < |list|
      invariant 0 <= i <= |list| == |before|
      invariant forall j :: i <= j < |list| ==> list[j] == before[j]
      invariant forall j :: 0 <= j < i ==>
                  list[j] == if Target(wanted, before[j]) && !SeasonOn(before[j]) then Some(before[j].value["monitored" := Bool(true)]) else before[j]
      invariant forall n :: n in have <==> exists se :: se in before[..i] && Number(se) == Some(n)
      invariant monitored == Numbers(before[..i], wanted, true) && search == Numbers(before[..i], wanted, seriesOn)
    {
      assert before[..i + 1] == before[..i] + [before[i]];
      NumbersAppend(before[..i], before[i], wanted, true);
      NumbersAppend(before[..i], before[i], wanted, seriesOn);
      var n := Number(list[i]);
      if n.None? {
        i := i + 1;
        continue;
      }
      have := have + {n.value};
      if !(wanted == [] && n.value > 0) && n.value !in wanted {
        i := i + 1;
        continue;
      }
      var on := SeasonOn(list[i]);
      if !on {
        list := list[i := Some(list[i].value["monitored" := Bool(true)])];
        monitored := monitored + [n.value];
      }
      if !on || !seriesOn {
        search := search + [n.value];
      }
      i := i + 1;
    }
    assert before[..i] == before;
  }

  /** Requested numbers the series lacks, collected from the set in no particular order and then sorted. */
  method CollectMissing(wanted: seq<int>, have: set<int>) returns (missing: seq<int>)
    ensures forall i, j :: 0 <= i < j < |missing| ==> missing[i] < missing[j]
    ensures forall n :: n in missing <==> n in wanted && n !in have
  {
    var want := set n | n in wanted;
    var todo := want;
    var found: seq<int> := [];
    while todo != {}
      invariant todo <= want
      invariant forall n :: n in found <==> n in want - todo && n !in have
      invariant forall i, j :: 0 <= i < j < |found| ==> found[i] != found[j]
      decreases |todo|
    {
      var n := Any(todo);
      if n !in have {
        found := found + [n];
      }
      todo := todo - {n};
    }
    SortSorts(found);
    missing := Sort(found);
    SortedDistinct(found, missing);
  }

  /** The change made to the decoded series, and what to report and to search. */
  method Edit(before: Series, wanted: seq<int>)
    returns (changed: bool, series: Series, monitored: seq<int>, missing: seq<int>, search: seq<int>)
    requires HasSeasons(before)
    ensures changed <==> !AllOn(before, wanted)
    ensures if changed then OnlyFlagsChanged(before, series, wanted) && AllOn(series, wanted)
            else series == before && monitored == [] && search == []
    ensures Ascending(monitored) && multiset(monitored) == multiset(Numbers(SeasonsOf(before), wanted, true))
    ensures Ascending(search) && multiset(search) == multiset(Numbers(SeasonsOf(before), wanted, SeriesOn(before)))
    ensures IsMissing(before, wanted, missing)
  {
    series := before;
    var seriesOn := SeriesOn(series);
    var list, have;
    list, have, monitored, search := SwitchOn(SeasonsOf(series), wanted, seriesOn);
    missing := CollectMissing(wanted, have);
    WhatChanged(before, wanted);
    SortSorts(monitored);
    SortSorts(search);
    SortKeepsEmpty(monitored);
    SortKeepsEmpty(search);
    changed := monitored != [];
    monitored := Sort(monitored);
    search := Sort(search);
    if search != [] && !seriesOn {
      series := series["monitored" := Plain(Bool(true))];
      changed := true;
    }
    if changed {
      series := series["seasons" := Seasons(list)];
      WrittenBack(before, wanted, list, series);
    }
  }

  lemma SortKeepsEmpty(s: seq<int>)
    ensures Sort(s) == [] <==> s == []
  {
    SortSorts(s);
    assert |multiset(s)| == |s| && |multiset(Sort(s))| == |Sort(s)|;
  }

  /** Something was off exactly when there is a season to switch, or one to search for with the series off. */
  lemma WhatChanged(s: Series, wanted: seq<int>)
    ensures !AllOn(s, wanted) <==>
              Numbers(SeasonsOf(s), wanted, true) != [] || (Numbers(SeasonsOf(s), wanted, SeriesOn(s)) != [] && !SeriesOn(s))
    ensures Numbers(SeasonsOf(s), wanted, true) != [] ==> Numbers(SeasonsOf(s), wanted, SeriesOn(s)) != []
    ensures AllOn(s, wanted) ==> Numbers(SeasonsOf(s), wanted, SeriesOn(s)) == []
  {
    NoNumbers(SeasonsOf(s), wanted, true);
    NoNumbers(SeasonsOf(s), wanted, SeriesOn(s));
  }

  /**
   * MonitorSeasons. When it succeeds the requested seasons and the series are
   * monitored and nothing but flags has changed; it writes only if something
   * was off, and searches exactly what it newly wants.
   */
  method MonitorSeasons(sonarr: Sonarr, seriesId: int, wanted: seq<int>) returns (r: Result<MonitorResult, MonitorError>)
    modifies sonarr
    ensures seriesId <= 0 ==> r == Err(InvalidId)
    ensures r.Err? <==>
              || seriesId <= 0 || !sonarr.luck.gets || !old(sonarr.document).Object? || !HasSeasons(old(sonarr.document).series)
              || (!AllOn(old(sonarr.document).series, wanted) && !sonarr.luck.put.Accepted?)
    ensures r.Ok? ==>
              && old(sonarr.document).Object? && sonarr.document.Object?
              && var before, after := old(sonarr.document).series, sonarr.document.series;
              && OnlyFlagsChanged(before, after, wanted) && AllOn(after, wanted) && IsMissing(before, wanted, r.value.missing)
    ensures r.Ok? ==>
              && Ascending(r.value.monitored)
              && multiset(r.value.monitored) == multiset(Numbers(SeasonsOf(old(sonarr.document).series), wanted, true))
    ensures r.Ok? ==>
              && old(sonarr.commands) <= sonarr.commands
              && var searches := sonarr.commands[|old(sonarr.commands)|..];
              && Ascending(Asked(searches))
              && multiset(Asked(searches))
                 == multiset(Numbers(SeasonsOf(old(sonarr.document).series), wanted, SeriesOn(old(sonarr.document).series)))
              && Answered(sonarr, |old(sonarr.commands)|) && r.value.searched == Searched(searches)
              && (r.value.searchFailed <==> exists c :: c in searches && !c.ok)
    ensures r.Ok? ==> sonarr.puts == old(sonarr.puts) + if AllOn(old(sonarr.document).series, wanted) then 0 else 1
    ensures r.Ok? && AllOn(old(sonarr.document).series, wanted) ==>
              sonarr.document == old(sonarr.document) && sonarr.commands == old(sonarr.commands) && r.value.monitored == []
    ensures r.Err? ==> sonarr.commands == old(sonarr.commands) && sonarr.puts <= old(sonarr.puts) + 1
    ensures r.Err? && sonarr.document != old(sonarr.document) ==>
              && old(sonarr.document).Object? && sonarr.document.Object?
              && OnlyFlagsChanged(old(sonarr.document).series, sonarr.document.series, wanted) && AllOn(sonarr.document.series, wanted)
  {
    if seriesId <= 0 {
      return Err(InvalidId);
    }
    var raw := sonarr.Get();
    if raw.None? {
      return Err(Unavailable);
    }
    if !raw.value.Object? {
      return Err(BadSeries);
    }
    var series := raw.value.series;
    if !HasSeasons(series) {
      return Err(BadSeasons);
    }
    var changed, updated, monitored, missing, search := Edit(series, wanted);
    if !changed {
      assert sonarr.commands[|sonarr.commands|..] == [];
      return Ok(MonitorResult(monitored, missing, [], false));
    }
    var put := sonarr.Put(updated);
    if !put {
      return Err(Unavailable);
    }
    var searched, failed := SearchAll(sonarr, search);
    return Ok(MonitorResult(monitored, missing, searched, failed));
  }

  /** The requested seasons are numbered as before, so the same ones are missing. */
  lemma SameMissing(before: Series, after: Series, wanted: seq<int>, first: seq<int>, second: seq<int>)
    requires OnlyFlagsChanged(before, after, wanted) && IsMissing(before, wanted, first) && IsMissing(after, wanted, second)
    ensures first == second
  {
    forall n ensures n in first <==> n in second {
      forall i | 0 <= i < |SeasonsOf(before)| ensures Number(SeasonsOf(after)[i]) == Number(SeasonsOf(before)[i]) {
        SameNumber(SeasonsOf(before)[i], SeasonsOf(after)[i]);
      }
      assert (exists se <- SeasonsOf(before) :: Number(se) == Some(n)) <==> (exists se <- SeasonsOf(after) :: Number(se) == Some(n));
    }
    AscendingIsUnique(first, second);
  }

  lemma SameNumber(before: Option<Season>, after: Option<Season>)
    requires OnlyFlagChanged(before, after)
    ensures Number(after) == Number(before)
  {
    if before.Some? {
      assert "seasonNumber" in after.value <==> "seasonNumber" in after.value - {"monitored"};
      assert "seasonNumber" in before.value ==> (after.value - {"monitored"})["seasonNumber"] == (before.value - {"monitored"})["seasonNumber"];
    }
  }

  /**
   * Asking twice: once the first call has succeeded, the second one finds all
   * done, sends nothing more and reports the same seasons missing.
   */
  method MonitorTwice(sonarr: Sonarr, seriesId: int, wanted: seq<int>)
    returns (first: Result<MonitorResult, MonitorError>, second: Result<MonitorResult, MonitorError>)
    modifies sonarr
    ensures first.Ok? ==> second == Ok(MonitorResult([], first.value.missing, [], false))
    ensures first.Ok? ==>
              && old(sonarr.document).Object?
              && var before := old(sonarr.document).series;
              && sonarr.puts == old(sonarr.puts) + (if AllOn(before, wanted) then 0 else 1)
              && |sonarr.commands| == |old(sonarr.commands)| + |Numbers(SeasonsOf(before), wanted, SeriesOn(before))|
  {
    first := MonitorSeasons(sonarr, seriesId, wanted);
    ghost var before, after, searches := old(sonarr.document), sonarr.document, sonarr.commands[|old(sonarr.commands)|..];
    second := MonitorSeasons(sonarr, seriesId, wanted);
    if first.Ok? {
      SameMissing(before.series, after.series, wanted, first.value.missing, second.value.missing);
      assert second.value.monitored == [] && Asked(sonarr.commands[|sonarr.commands|..]) == [];
      assert |multiset(Asked(searches))| == |multiset(Numbers(SeasonsOf(before.series), wanted, SeriesOn(before.series)))|;
    }
  }

  method SearchAll(sonarr: Sonarr, search: seq<int>) returns (searched: seq<int>, failed: bool)
    modifies sonarr`commands
    ensures old(sonarr.commands) <= sonarr.commands
    ensures Answered(sonarr, |old(sonarr.commands)|)
    ensures var sent := sonarr.commands[|old(sonarr.commands)|..];
            && Asked(sent) == search && searched == Searched(sent)
            && (failed <==> exists c :: c in sent && !c.ok)
  {
    searched, failed := [], false;
    var i := 0;
    ghost var before := sonarr.commands;
    ghost var sent: seq<Command> := [];
    while i < |search|
      invariant 0 <= i <= |search|
      invariant sonarr.commands == before + sent && Asked(sent) == search[..i] && searched == Searched(sent)
      invariant Answered(sonarr, |before|)
      invariant failed <==> exists c :: c in sent && !c.ok
    {
      var ok := sonarr.SendSearch(search[i]);
      SearchedAppend(sent, SeasonSearch(search[i], ok));
      assert Asked(sent + [SeasonSearch(search[i], ok)]) == Asked(sent) + [search[i]];
      sent := sent + [SeasonSearch(search[i], ok)];
      if !ok {
        failed := true;
        assert SeasonSearch(search[i], ok) in sent;
      } else {
        searched := searched + [search[i]];
      }
      i := i + 1;
    }
    assert sonarr.commands[|before|..] == sent;
  }

  /** The series written back when something was off. */
  lemma WrittenBack(before: Series, wanted: seq<int>, list: seq<Option<Season>>, after: Series)
    requires HasSeasons(before) && !AllOn(before, wanted) && |list| == |SeasonsOf(before)|
    requires forall i :: 0 <= i < |list| ==>
               list[i] == if Target(wanted, SeasonsOf(before)[i]) && !SeasonOn(SeasonsOf(before)[i])
                          then Some(SeasonsOf(before)[i].value["monitored" := Bool(true)]) else SeasonsOf(before)[i]
    requires after == (if SeriesOn(before) then before else before["monitored" := Plain(Bool(true))])["seasons" := Seasons(list)]
    ensures OnlyFlagsChanged(before, after, wanted) && AllOn(after, wanted)
  {
    var seasons := SeasonsOf(before);
    assert SeasonsOf(after) == list;
    assert exists se :: se in seasons && Target(wanted, se);
    forall i | 0 <= i < |list|
      ensures OnlyFlagChanged(seasons[i], list[i]) && Number(list[i]) == Number(seasons[i]) && (Target(wanted, list[i]) ==> SeasonOn(list[i]))
    {
      assert Number(list[i]) == Number(seasons[i]);
    }
    assert "seasons" in before;
    assert SeriesOn(after);
  }

  // ----------------------------------------------------- what is asked, again

  /** With no numbers given every season is meant but season 0, otherwise those given. */
  predicate Meant(wanted: seq<int>, n: int) { if wanted == [] then n > 0 else n in wanted }

  /** The season's number, null being 0; a season without the field has none. */
  predicate Numbered(se: Option<Season>, n: int) {
    && se.Some? && "seasonNumber" in se.value
    && (se.value["seasonNumber"] == Int(n) || (se.value["seasonNumber"].Null? && n == 0))
  }

  predicate IsOn(se: Option<Season>) { se.Some? && "monitored" in se.value && se.value["monitored"] == Bool(true) }

  ghost predicate IsMeant(wanted: seq<int>, se: Option<Season>) { exists n :: Numbered(se, n) && Meant(wanted, n) }

  lemma NumberIs(se: Option<Season>, n: int)
    ensures Number(se) == Some(n) <==> Numbered(se, n)
  {
  }

  lemma TargetIsMeant(wanted: seq<int>, se: Option<Season>)
    ensures Target(wanted, se) <==> IsMeant(wanted, se)
  {
    if Number(se).Some? {
      NumberIs(se, Number(se).value);
    }
    if n :| Numbered(se, n) && Meant(wanted, n) {
      NumberIs(se, n);
    }
  }

  /**
   * What a success leaves: each season meant is on, every other one is as it
   * was, and a series with a season meant is on.
   */
  lemma OnExactlyIfMeant(before: Series, after: Series, wanted: seq<int>, i: nat)
    requires OnlyFlagsChanged(before, after, wanted) && AllOn(after, wanted) && i < |SeasonsOf(before)|
    ensures i < |SeasonsOf(after)|
    ensures IsMeant(wanted, SeasonsOf(before)[i]) ==>
              && IsOn(SeasonsOf(after)[i]) && SeasonsOf(after)[i].value - {"monitored"} == SeasonsOf(before)[i].value - {"monitored"}
              && "monitored" in after && after["monitored"] == Plain(Bool(true))
    ensures !IsMeant(wanted, SeasonsOf(before)[i]) ==> SeasonsOf(after)[i] == SeasonsOf(before)[i]
  {
    SameNumber(SeasonsOf(before)[i], SeasonsOf(after)[i]);
    TargetIsMeant(wanted, SeasonsOf(before)[i]);
    assert SeasonsOf(after)[i] in SeasonsOf(after);
  }

  /** And what it searches: the seasons meant that were off, or all meant if the series was. */
  lemma {:induction false} SearchedExactlyIfMeant(list: seq<Option<Season>>, wanted: seq<int>, seriesOn: bool, n: int)
    ensures n in Numbers(list, wanted, seriesOn) <==>
            exists se <- list :: Numbered(se, n) && Meant(wanted, n) && (!IsOn(se) || !seriesOn)
  {
    if list != [] {
      SearchedExactlyIfMeant(list[1..], wanted, seriesOn, n);
      NumberIs(list[0], n);
      assert list == [list[0]] + list[1..];
    }
  }

  /** A series with no seasons, or null for them, is read as one without; anything else that is no list is an error. */
  lemma ReadableSeries(s: Series)
    ensures !HasSeasons(s) <==> "seasons" in s && s["seasons"].Plain? && !s["seasons"].value.Null?
    ensures HasSeasons(s) && !("seasons" in s && s["seasons"].Seasons?) ==> SeasonsOf(s) == []
  {
  }
}
