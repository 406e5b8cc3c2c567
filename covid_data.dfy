/** Loading the ECDC case-distribution feed into per-country death series:
    the record loop of `get_covid_data_json`. The feed has already been
    decoded into rows of text fields; this module keeps the 2020 rows,
    parses their numbers, turns day and month into a day offset and groups
    the records by the raw country key. */
module CovidData {
  import opened Wrappers
  import opened IntParse

  /** One observation: `day` is the offset computed from the row's day and
      month fields, `cases` and `deaths` are the counts of that row. */
  datatype Record = Record(day: int, cases: int, deaths: int)

  /** One country: its display name, its records in feed order and the
      population the first row for it carried. */
  datatype CountryData = CountryData(countryName: string, records: seq<Record>, population2018: int)

  /** The fields of a decoded feed row that the loader reads, all text. */
  datatype Row = Row(
    day: string,
    month: string,
    year: string,
    cases: string,
    deaths: string,
    countriesAndTerritories: string,
    popData2018: string)

  /** Which numeric field failed to parse. */
  datatype Field = Day | Month | Cases | Deaths

  /** Why a load stops. `ParseFailed` is the error `?` returns; `MonthOutOfBounds`
      stands for the panic of indexing the 12-entry month table with a month
      of 12 or more. Either way no groups are returned. */
  datatype LoadError = ParseFailed(field: Field) | MonthOutOfBounds(month: nat)

  /** A kept, parsed row on its way into the map. */
  datatype Entry = Entry(key: string, record: Record, population: string)

  /** The month table as the loader writes it: its last entry, 336, is one
      more than the number of days of 2020 before December. */
  const FirstDayOfMonthAsWritten: seq<int> := [0, 31, 60, 91, 121, 152, 182, 213, 244, 274, 305, 336]

  /** The month table with its last entry corrected to 335: the cumulative
      lengths of the months of 2020. The loader keeps the table as written;
      this one states what that table evidently meant. */
  const FirstDayOfMonth: seq<int> := [0, 31, 60, 91, 121, 152, 182, 213, 244, 274, 305, 335]

  /** The lengths of the months of 2020, a leap year. */
  const MonthLengths2020: seq<int> := [31, 29, 31, 30, 31, 30, 31, 31, 30, 31, 30, 31]

  function SumPrefix(s: seq<int>, n: nat): int
    requires n <= |s|
  {
    if n == 0 then 0 else SumPrefix(s, n - 1) + s[n - 1]
  }

  function DayOffsetAsWritten(day: int, month: nat): int
    requires month < |FirstDayOfMonthAsWritten|
  {
    day + FirstDayOfMonthAsWritten[month]
  }

  function DayOffset(day: int, month: nat): int
    requires month < |FirstDayOfMonth|
  {
    day + FirstDayOfMonth[month]
  }

  /** With the table as written, the last day of month 10 and the first day
      of month 11 are two offsets apart: no date of 2020 gets offset 336. */
  lemma AsWrittenTableSkipsADay()
    ensures FirstDayOfMonthAsWritten[11] != SumPrefix(MonthLengths2020, 11)
    ensures DayOffsetAsWritten(1, 11) - DayOffsetAsWritten(MonthLengths2020[10], 10) == 2
  {
    FirstDayOfMonthIsLeapYearTable();
  }

  /** The table has 12 entries, entry m is the number of days of 2020 before
      month m (counting months from 0), so it is strictly increasing. */
  lemma FirstDayOfMonthIsLeapYearTable()
    ensures |FirstDayOfMonth| == 12
    ensures forall m :: 0 <= m < 12 ==> FirstDayOfMonth[m] == SumPrefix(MonthLengths2020, m)
    ensures forall m, n :: 0 <= m < n < 12 ==> FirstDayOfMonth[m] < FirstDayOfMonth[n]
  {
    assert SumPrefix(MonthLengths2020, 1) == 31;
    assert SumPrefix(MonthLengths2020, 2) == 60;
    assert SumPrefix(MonthLengths2020, 3) == 91;
    assert SumPrefix(MonthLengths2020, 4) == 121;
    assert SumPrefix(MonthLengths2020, 5) == 152;
    assert SumPrefix(MonthLengths2020, 6) == 182;
    assert SumPrefix(MonthLengths2020, 7) == 213;
    assert SumPrefix(MonthLengths2020, 8) == 244;
    assert SumPrefix(MonthLengths2020, 9) == 274;
    assert SumPrefix(MonthLengths2020, 10) == 305;
    assert SumPrefix(MonthLengths2020, 11) == 335;
  }

  /** With the corrected table the days of 2020 get the offsets 1 to 366 in
      calendar order without a gap: the last day of each month is followed by
      the first day of the next. */
  lemma DayOffsetsHaveNoGap()
    ensures DayOffset(1, 0) == 1
    ensures forall m :: 0 <= m < 11 ==> DayOffset(MonthLengths2020[m], m) + 1 == DayOffset(1, m + 1)
    ensures DayOffset(MonthLengths2020[11], 11) == 366
  {
  }

  predicate Kept(row: Row) {
    row.year == "2020"
  }

  /** The `Record` built from a 2020 row, or the reason the load stops at it.
      The fields are tried in the order the expression evaluates them: day,
      month, the table index, cases, deaths. */
  function ParseRecord(row: Row): (r: Result<Record, LoadError>)
    ensures r.Ok? <==>
      && ParseI32(row.day).Some?
      && ParseUsize(row.month).Some? && ParseUsize(row.month).value < 12
      && ParseI32(row.cases).Some?
      && ParseI32(row.deaths).Some?
    ensures r.Ok? ==>
      && r.value.day == DayOffsetAsWritten(ParseI32(row.day).value, ParseUsize(row.month).value)
      && r.value.cases == ParseI32(row.cases).value
      && r.value.deaths == ParseI32(row.deaths).value
    ensures r == Err(ParseFailed(Day)) <==> ParseI32(row.day).None?
    ensures r == Err(ParseFailed(Month)) <==> ParseI32(row.day).Some? && ParseUsize(row.month).None?
    ensures r.Err? && r.error.MonthOutOfBounds? <==>
      ParseI32(row.day).Some? && ParseUsize(row.month).Some? && ParseUsize(row.month).value >= 12
    ensures r.Err? && r.error.MonthOutOfBounds? ==> r.error.month == ParseUsize(row.month).value
    ensures r == Err(ParseFailed(Cases)) <==>
      && ParseI32(row.day).Some?
      && ParseUsize(row.month).Some? && ParseUsize(row.month).value < 12
      && ParseI32(row.cases).None?
    ensures r == Err(ParseFailed(Deaths)) <==>
      && ParseI32(row.day).Some?
      && ParseUsize(row.month).Some? && ParseUsize(row.month).value < 12
      && ParseI32(row.cases).Some?
      && ParseI32(row.deaths).None?
  {
    match ParseI32(row.day)
    case None => Err(ParseFailed(Day))
    case Some(day) =>
      match ParseUsize(row.month)
      case None => Err(ParseFailed(Month))
      case Some(month) =>
        if month >= |FirstDayOfMonthAsWritten| then Err(MonthOutOfBounds(month))
        else
          match ParseI32(row.cases)
          case None => Err(ParseFailed(Cases))
          case Some(cases) =>
            match ParseI32(row.deaths)
            case None => Err(ParseFailed(Deaths))
            case Some(deaths) => Ok(Record(DayOffsetAsWritten(day, month), cases, deaths))
  }

  /** `key.replace("_", " ")` */
  function DisplayName(key: string): (name: string)
    ensures |name| == |key|
    ensures forall i :: 0 <= i < |key| ==> name[i] == if key[i] == '_' then ' ' else key[i]
  {
    if key == [] then [] else [if key[0] == '_' then ' ' else key[0]] + DisplayName(key[1..])
  }

  /** A display name has no underscore left, and renaming it again changes nothing. */
  lemma DisplayNameNormal(key: string)
    ensures '_' !in DisplayName(key)
    ensures DisplayName(DisplayName(key)) == DisplayName(key)
  {
  }

  /** Two different raw keys can share a display name; grouping by the raw
      key keeps them apart. */
  lemma DisplayNameNotInjective()
    ensures "Cura_ao" != "Cura ao" && DisplayName("Cura_ao") == DisplayName("Cura ao")
  {
  }

  /** `pop_data_2018.parse().unwrap_or(0)` */
  function PopulationValue(text: string): int
  {
    ParseI32(text).UnwrapOr(0)
  }

  /** One turn of the record loop on the entries so far: a non-2020 row is
      passed over without looking at any other field, a 2020 row is parsed
      and appended, or stops the load. */
  function Step(entries: seq<Entry>, row: Row): Result<seq<Entry>, LoadError>
  {
    if !Kept(row) then Ok(entries)
    else
      match ParseRecord(row)
      case Err(e) => Err(e)
      case Ok(record) => Ok(entries + [Entry(row.countriesAndTerritories, record, row.popData2018)])
  }

  /** The entries of all rows, or the failure of the first 2020 row that does not parse. */
  function Normalise(rows: seq<Row>): Result<seq<Entry>, LoadError>
  {
    if rows == [] then Ok([])
    else
      match Normalise(rows[..|rows| - 1])
      case Err(e) => Err(e)
      case Ok(entries) => Step(entries, rows[|rows| - 1])
  }

  lemma NormalisePrefix(rows: seq<Row>, i: nat)
    requires i < |rows|
    ensures Normalise(rows[..i + 1]) == match Normalise(rows[..i])
                                        case Err(e) => Err(e)
                                        case Ok(entries) => Step(entries, rows[i])
  {
    assert rows[..i + 1][..i] == rows[..i];
  }

  /** One insert-or-append on the country map. */
  function AddRecord(groups: map<string, CountryData>, e: Entry): map<string, CountryData>
  {
    if e.key in groups then
      groups[e.key := groups[e.key].(records := groups[e.key].records + [e.record])]
    else
      groups[e.key := CountryData(DisplayName(e.key), [e.record], PopulationValue(e.population))]
  }

  function Group(entries: seq<Entry>): map<string, CountryData>
  {
    if entries == [] then map[] else AddRecord(Group(entries[..|entries| - 1]), entries[|entries| - 1])
  }

  /** What `get_covid_data_json` returns once the feed is decoded. */
  function Load(rows: seq<Row>): Result<map<string, CountryData>, LoadError>
  {
    match Normalise(rows)
    case Err(e) => Err(e)
    case Ok(entries) => Ok(Group(entries))
  }

  /** The record loop of `get_covid_data_json`: a map updated in place, row
      by row, returning early on the first row that fails. */
  method GetCovidData(rows: seq<Row>) returns (r: Result<map<string, CountryData>, LoadError>)
    ensures r == Load(rows)
  {
    var countryMap: map<string, CountryData> := map[];
    ghost var entries: seq<Entry> := [];
    var i := 0;
    while i < |rows|
      invariant 0 <= i <= |rows|
      invariant Normalise(rows[..i]) == Ok(entries)
      invariant countryMap == Group(entries)
    {
      var row := rows[i];
      NormalisePrefix(rows, i);
      if row.year != "2020" {
        i := i + 1;
        continue;
      }
      var day := ParseI32(row.day);
      if day.None? {
        assert Step(entries, row) == Err(ParseFailed(Day));
        NormaliseStopsAtError(rows, i + 1);
        return Err(ParseFailed(Day));
      }
      var month := ParseUsize(row.month);
      if month.None? {
        assert Step(entries, row) == Err(ParseFailed(Month));
        NormaliseStopsAtError(rows, i + 1);
        return Err(ParseFailed(Month));
      }
      if month.value >= |FirstDayOfMonthAsWritten| {
        assert Step(entries, row) == Err(MonthOutOfBounds(month.value));
        NormaliseStopsAtError(rows, i + 1);
        return Err(MonthOutOfBounds(month.value));
      }
      var cases := ParseI32(row.cases);
      if cases.None? {
        assert Step(entries, row) == Err(ParseFailed(Cases));
        NormaliseStopsAtError(rows, i + 1);
        return Err(ParseFailed(Cases));
      }
      var deaths := ParseI32(row.deaths);
      if deaths.None? {
        assert Step(entries, row) == Err(ParseFailed(Deaths));
        NormaliseStopsAtError(rows, i + 1);
        return Err(ParseFailed(Deaths));
      }
      var record := Record(DayOffsetAsWritten(day.value, month.value), cases.value, deaths.value);
      var key := row.countriesAndTerritories;
      assert Step(entries, row) == Ok(entries + [Entry(key, record, row.popData2018)]);
      if key in countryMap {
        var value := countryMap[key];
        countryMap := countryMap[key := value.(records := value.records + [record])];
      } else {
        countryMap := countryMap[key := CountryData(DisplayName(key), [record], PopulationValue(row.popData2018))];
      }
      ghost var previous := entries;
      entries := entries + [Entry(key, record, row.popData2018)];
      assert entries[..|entries| - 1] == previous;
      i := i + 1;
    }
    assert rows[..i] == rows;
    r := Ok(countryMap);
  }

  // ---------------------------------------------------------------------
  // What the load keeps, what stops it, and how it groups.

  /** The 2020 rows, in feed order. */
  function Only2020(rows: seq<Row>): (kept: seq<Row>)
    ensures |kept| <= |rows|
    ensures forall row :: row in kept <==> row in rows && Kept(row)
  {
    if rows == [] then []
    else
      var init, last := rows[..|rows| - 1], rows[|rows| - 1];
      assert rows == init + [last];
      Only2020(init) + (if Kept(last) then [last] else [])
  }

  /** The entry for a kept row carries its raw key, its parsed record and its
      population text. */
  predicate Describes(e: Entry, row: Row) {
    e.key == row.countriesAndTerritories && ParseRecord(row) == Ok(e.record) && e.population == row.popData2018
  }

  /** Once a prefix of the rows fails, the whole load fails the same way. */
  lemma {:induction false} NormaliseStopsAtError(rows: seq<Row>, j: nat)
    requires j <= |rows| && Normalise(rows[..j]).Err?
    ensures Normalise(rows) == Normalise(rows[..j])
    decreases |rows|
  {
    if j < |rows| {
      var init := rows[..|rows| - 1];
      assert init[..j] == rows[..j];
      NormaliseStopsAtError(init, j);
    } else {
      assert rows[..j] == rows;
    }
  }

  /** Rows of other years change nothing: loading the feed is loading its 2020 rows. */
  lemma {:induction false} LoadIgnoresOtherYears(rows: seq<Row>)
    ensures Normalise(rows) == Normalise(Only2020(rows))
    ensures Load(rows) == Load(Only2020(rows))
  {
    if rows != [] {
      var init, last := rows[..|rows| - 1], rows[|rows| - 1];
      LoadIgnoresOtherYears(init);
      var keptInit := Only2020(init);
      if Kept(last) {
        var kept := keptInit + [last];
        assert Only2020(rows) == kept;
        assert kept[..|kept| - 1] == keptInit;
        assert Normalise(kept) == match Normalise(keptInit)
                                  case Err(e) => Err(e)
                                  case Ok(entries) => Step(entries, last);
      } else {
        assert Only2020(rows) == keptInit;
        assert Normalise(rows) == Normalise(init);
      }
    }
  }

  /** The load succeeds exactly when every 2020 row parses, and then it has
      one entry per 2020 row, in feed order. */
  lemma {:induction false} NormaliseSucceeds(rows: seq<Row>)
    ensures Normalise(rows).Ok? <==> forall i :: 0 <= i < |rows| && Kept(rows[i]) ==> ParseRecord(rows[i]).Ok?
    ensures Normalise(rows).Ok? ==>
      var entries, kept := Normalise(rows).value, Only2020(rows);
      |entries| == |kept| && forall j :: 0 <= j < |entries| ==> Describes(entries[j], kept[j])
  {
    if rows != [] {
      var init, last := rows[..|rows| - 1], rows[|rows| - 1];
      NormaliseSucceeds(init);
      assert forall i :: 0 <= i < |init| ==> init[i] == rows[i];
      assert rows == init + [last];
    }
  }

  /** A failed load reports the failure of the first 2020 row that does not
      parse; every 2020 row before it parsed. */
  lemma {:induction false} NormaliseFirstError(rows: seq<Row>)
    requires Normalise(rows).Err?
    ensures exists i :: 0 <= i < |rows| && Kept(rows[i]) && ParseRecord(rows[i]) == Err(Normalise(rows).error)
                     && forall j :: 0 <= j < i && Kept(rows[j]) ==> ParseRecord(rows[j]).Ok?
  {
    var init, last := rows[..|rows| - 1], rows[|rows| - 1];
    assert forall i :: 0 <= i < |init| ==> init[i] == rows[i];
    if Normalise(init).Err? {
      NormaliseFirstError(init);
      var i :| 0 <= i < |init| && Kept(init[i]) && ParseRecord(init[i]) == Err(Normalise(init).error)
               && forall j :: 0 <= j < i && Kept(init[j]) ==> ParseRecord(init[j]).Ok?;
      assert Kept(rows[i]) && ParseRecord(rows[i]) == Err(Normalise(rows).error);
    } else {
      NormaliseSucceeds(init);
      var i := |rows| - 1;
      assert Kept(rows[i]) && ParseRecord(rows[i]) == Err(Normalise(rows).error);
    }
  }

  function KeysOf(entries: seq<Entry>): set<string> {
    set e | e in entries :: e.key
  }

  /** The records of one key, in the order of the entries. */
  function RecordsOf(entries: seq<Entry>, key: string): seq<Record> {
    if entries == [] then []
    else (if entries[0].key == key then [entries[0].record] else []) + RecordsOf(entries[1..], key)
  }

  lemma {:induction false} RecordsOfAppend(entries: seq<Entry>, e: Entry, key: string)
    ensures RecordsOf(entries + [e], key) == RecordsOf(entries, key) + (if e.key == key then [e.record] else [])
  {
    var tail := if e.key == key then [e.record] else [];
    if entries == [] {
      assert entries + [e] == [e] && [e][1..] == [];
    } else {
      var first := entries[0];
      var head := if first.key == key then [first.record] else [];
      var rest := entries[1..];
      assert (entries + [e])[0] == first;
      assert (entries + [e])[1..] == rest + [e];
      RecordsOfAppend(rest, e, key);
      assert RecordsOf(entries + [e], key) == head + (RecordsOf(rest, key) + tail);
      assert RecordsOf(entries, key) == head + RecordsOf(rest, key);
    }
  }

  lemma {:induction false} RecordsOfAbsent(entries: seq<Entry>, key: string)
    requires key !in KeysOf(entries)
    ensures RecordsOf(entries, key) == []
  {
    if entries != [] {
      assert entries[0] in entries;
      assert KeysOf(entries[1..]) <= KeysOf(entries);
      RecordsOfAbsent(entries[1..], key);
    }
  }

  /** The groups are keyed by exactly the raw keys of the entries. */
  lemma {:induction false} GroupKeys(entries: seq<Entry>)
    ensures Group(entries).Keys == KeysOf(entries)
  {
    if entries != [] {
      var init, last := entries[..|entries| - 1], entries[|entries| - 1];
      GroupKeys(init);
      assert entries == init + [last];
      assert KeysOf(entries) == KeysOf(init) + {last.key};
    }
  }

  /** Each group holds every record of its key and nothing else, in entry
      order, so it is never empty, and its name is the key with underscores
      made spaces. */
  lemma {:induction false} GroupContents(entries: seq<Entry>, key: string)
    requires key in Group(entries)
    ensures Group(entries)[key].records == RecordsOf(entries, key) != []
    ensures Group(entries)[key].countryName == DisplayName(key)
  {
    var init, last := entries[..|entries| - 1], entries[|entries| - 1];
    assert entries == init + [last];
    var before := Group(init);
    assert Group(entries) == AddRecord(before, last);
    RecordsOfAppend(init, last, key);
    if key in before {
      GroupContents(init, key);
    } else {
      assert key == last.key;
      GroupKeys(init);
      RecordsOfAbsent(init, key);
    }
  }

  /** The population of a group is that of the first entry for its key:
      later entries for the key never overwrite it. */
  lemma {:induction false} GroupPopulationFirstWins(entries: seq<Entry>, key: string)
    requires key in Group(entries)
    ensures exists j :: 0 <= j < |entries| && entries[j].key == key
                     && (forall i :: 0 <= i < j ==> entries[i].key != key)
                     && Group(entries)[key].population2018 == PopulationValue(entries[j].population)
  {
    var init, last := entries[..|entries| - 1], entries[|entries| - 1];
    assert entries == init + [last];
    var before := Group(init);
    assert Group(entries) == AddRecord(before, last);
    if key in before {
      GroupPopulationFirstWins(init, key);
      var j :| 0 <= j < |init| && init[j].key == key
               && (forall i :: 0 <= i < j ==> init[i].key != key)
               && before[key].population2018 == PopulationValue(init[j].population);
      assert Group(entries)[key].population2018 == before[key].population2018;
      assert entries[j] == init[j];
      assert forall i :: 0 <= i < j ==> entries[i] == init[i];
    } else {
      assert key == last.key;
      GroupKeys(init);
      var j := |entries| - 1;
      forall i | 0 <= i < j
        ensures entries[i].key != key
      {
        assert entries[i] == init[i] && init[i] in init;
      }
    }
  }

  /** The number of records held by all groups together. */
  ghost function TotalRecords(groups: map<string, CountryData>): nat
    decreases groups.Keys
  {
    if groups == map[] then 0
    else
      var k :| k in groups;
      |groups[k].records| + TotalRecords(groups - {k})
  }

  lemma {:induction false} TotalRecordsRemove(groups: map<string, CountryData>, k: string)
    requires k in groups
    ensures TotalRecords(groups) == |groups[k].records| + TotalRecords(groups - {k})
    decreases groups.Keys
  {
    var x :| x in groups && TotalRecords(groups) == |groups[x].records| + TotalRecords(groups - {x});
    if x != k {
      var withoutX, withoutK := groups - {x}, groups - {k};
      TotalRecordsRemove(withoutX, k);
      TotalRecordsRemove(withoutK, x);
      assert withoutX - {k} == withoutK - {x};
    }
  }

  /** Grouping neither loses nor duplicates a record. */
  lemma {:induction false} GroupTotal(entries: seq<Entry>)
    ensures TotalRecords(Group(entries)) == |entries|
  {
    if entries != [] {
      var init, last := entries[..|entries| - 1], entries[|entries| - 1];
      GroupTotal(init);
      var before := Group(init);
      var after := AddRecord(before, last);
      TotalRecordsRemove(after, last.key);
      if last.key in before {
        TotalRecordsRemove(before, last.key);
        assert after - {last.key} == before - {last.key};
      } else {
        assert after - {last.key} == before;
      }
    }
  }

  lemma KeysOfMatchingRows(entries: seq<Entry>, kept: seq<Row>, rows: seq<Row>, key: string)
    requires |entries| == |kept|
    requires forall j :: 0 <= j < |entries| ==> entries[j].key == kept[j].countriesAndTerritories
    requires forall row :: row in kept <==> row in rows && Kept(row)
    ensures key in KeysOf(entries) <==> exists row :: row in rows && Kept(row) && row.countriesAndTerritories == key
  {
  }

  /** A successful load has a group for exactly the countries of its 2020
      rows, and the groups together hold one record per 2020 row. */
  lemma LoadKeepsEveryRecord(rows: seq<Row>)
    requires Load(rows).Ok?
    ensures forall key :: key in Load(rows).value <==>
      exists row :: row in rows && Kept(row) && row.countriesAndTerritories == key
    ensures TotalRecords(Load(rows).value) == |Only2020(rows)|
  {
    NormaliseSucceeds(rows);
    var entries, kept := Normalise(rows).value, Only2020(rows);
    assert Load(rows) == Ok(Group(entries));
    GroupKeys(entries);
    GroupTotal(entries);
    assert forall j :: 0 <= j < |entries| ==> entries[j].key == kept[j].countriesAndTerritories by {
      forall j | 0 <= j < |entries| ensures entries[j].key == kept[j].countriesAndTerritories {
        assert Describes(entries[j], kept[j]);
      }
    }
    forall key
      ensures key in KeysOf(entries) <==> exists row :: row in rows && Kept(row) && row.countriesAndTerritories == key
    {
      KeysOfMatchingRows(entries, kept, rows, key);
    }
  }
}
