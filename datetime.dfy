/**
  PySAR's date utilities (`pysar/_datetime.py`): expanding and truncating the century of
  YYMMDD / YYYYMMDD acquisition dates, assembling the date list of an interferogram file
  or a date-list text file, indexing dates, and temporal baselines in days.

  The file reads are left to the caller: an interferogram file is given as its top-level
  group names and, per group, the attributes of its datasets; a text file as its lines.
 */
module Datetime {
  import opened Wrappers
  import opened Strings
  import opened Calendar
  import opened Sorting

  /** How the utilities fail; each stands for the exception or exit the Python code raises. */
  datatype Error =
    | UnboundLocal(name: string)        // UnboundLocalError
    | NoGroups                          // IndexError: k[0] of an empty key list
    | UnsupportedKind(kind: string)     // message and sys.exit(1)
    | MissingAttribute(name: string)    // KeyError: attrs['DATE12']
    | MissingSecondDate(date12: string) // IndexError: dates[1] of a DATE12 without '-'
    | EmptyDateList                     // IndexError: dateList[0]
    | BadDate(date: string)             // ValueError from time.strptime

  // ---------------------------------------------------------------- century expansion

  /** `yymmdd2yyyymmdd`: years beginning with 9 are 199x, all others 20xx. */
  function ExpandCentury(date: string): (r: string)
    requires |date| > 0
    ensures |r| == |date| + 2 && r[2..] == date
    ensures r[..2] == "19" || r[..2] == "20"
    ensures r[..2] == "19" <==> date[0] == '9'
  {
    if date[0] == '9' then "19" + date else "20" + date
  }

  /** `yyyymmdd` on a single string: only 6-character dates gain a century. */
  function ToYyyymmdd(date: string): (r: string)
    ensures |date| == 6 ==> |r| == 8 && r[2..] == date && (r[..2] == "19" <==> date[0] == '9')
    ensures |date| != 6 ==> r == date
  {
    if |date| == 6 then ExpandCentury(date) else date
  }

  /** `yyyymmdd` on a list, element by element. */
  function ToYyyymmddAll(dates: seq<string>): seq<string>
  {
    seq(|dates|, i requires 0 <= i < |dates| => ToYyyymmdd(dates[i]))
  }

  /** `yyyymmdd` on a list, as the source computes it: a loop appending to `datesOut`. */
  method ToYyyymmddList(dates: seq<string>) returns (datesOut: seq<string>)
    ensures |datesOut| == |dates|
    ensures forall i :: 0 <= i < |dates| && |dates[i]| == 6 ==> datesOut[i] == ExpandCentury(dates[i])
    ensures forall i :: 0 <= i < |dates| && |dates[i]| != 6 ==> datesOut[i] == dates[i]
    ensures datesOut == ToYyyymmddAll(dates)
  {
    datesOut := [];
    for n := 0 to |dates|
      invariant |datesOut| == n
      invariant forall i :: 0 <= i < n ==> datesOut[i] == ToYyyymmdd(dates[i])
    {
      var date := dates[n];
      if |date| == 6 {
        date := ExpandCentury(date);
      }
      datesOut := datesOut + [date];
    }
  }

  /** Normalising twice is normalising once: a second pass never sees a 6-character date. */
  lemma ToYyyymmddIdempotent(date: string)
    ensures ToYyyymmdd(ToYyyymmdd(date)) == ToYyyymmdd(date)
  {
  }

  /** The century rule at its boundary: "99" is 1999, "01" is 2001. */
  lemma CenturyBoundary()
    ensures ToYyyymmdd("990101") == "19990101"
    ensures ToYyyymmdd("010101") == "20010101"
  {
  }

  // ---------------------------------------------------------------- century truncation

  /**
    `yymmdd` on a single string, as written: for an 8-character string it reads `date`,
    a name that is local to the function (the list branch assigns it) but unassigned on
    this path, so Python raises UnboundLocalError; other strings come back unchanged.
   */
  function ToYymmdd(dates: string): (r: Result<string, Error>)
    ensures r.Failure? <==> |dates| == 8
    ensures r.Failure? ==> r.error == UnboundLocal("date")
    ensures r.Success? ==> r.value == dates
  {
    if |dates| == 8 then Failure(UnboundLocal("date")) else Success(dates)
  }

  /** The defect: the scalar form fails on the very input it exists to shorten. */
  lemma ToYymmddFailsOnFullDate()
    ensures ToYymmdd("20060101") == Failure(UnboundLocal("date"))
    ensures TrimCentury("20060101") == "060101"
  {
  }

  /** `yymmdd` on one date as intended (and as the list branch does it): drop the century. */
  function TrimCentury(date: string): (r: string)
    ensures |date| == 8 ==> |r| == 6 && date == date[..2] + r
    ensures |date| != 8 ==> r == date
  {
    if |date| == 8 then date[2..8] else date
  }

  function TrimCenturyAll(dates: seq<string>): seq<string>
  {
    seq(|dates|, i requires 0 <= i < |dates| => TrimCentury(dates[i]))
  }

  /** `yymmdd` on a list: a loop appending the last 6 characters of each 8-character date. */
  method ToYymmddList(dates: seq<string>) returns (datesOut: seq<string>)
    ensures |datesOut| == |dates|
    ensures forall i :: 0 <= i < |dates| && |dates[i]| == 8 ==> datesOut[i] == dates[i][2..]
    ensures forall i :: 0 <= i < |dates| && |dates[i]| != 8 ==> datesOut[i] == dates[i]
    ensures datesOut == TrimCenturyAll(dates)
  {
    datesOut := [];
    for n := 0 to |dates|
      invariant |datesOut| == n
      invariant forall i :: 0 <= i < n ==> datesOut[i] == TrimCentury(dates[i])
    {
      var date := dates[n];
      if |date| == 8 {
        date := date[2..8];
      }
      datesOut := datesOut + [date];
    }
  }

  /** Truncation undoes expansion of a 6-character date. */
  lemma TrimCenturyAfterExpand(date: string)
    requires |date| == 6
    ensures TrimCentury(ToYyyymmdd(date)) == date
    ensures ToYyyymmdd(TrimCentury(ToYyyymmdd(date))) == ToYyyymmdd(date)
  {
  }

  /** Expansion undoes truncation of an 8-character date whose century follows the rule. */
  lemma ExpandAfterTrimCentury(date: string)
    requires |date| == 8
    requires date[..2] == (if date[2] == '9' then "19" else "20")
    ensures ToYyyymmdd(TrimCentury(date)) == date
  {
    assert date == date[..2] + date[2..];
  }

  /** On lists of 6-character dates, `yymmdd(yyyymmdd(dates)) == dates`. */
  lemma ListRoundTrip(dates: seq<string>)
    requires forall i :: 0 <= i < |dates| ==> |dates[i]| == 6
    ensures TrimCenturyAll(ToYyyymmddAll(dates)) == dates
  {
    forall i | 0 <= i < |dates|
      ensures TrimCenturyAll(ToYyyymmddAll(dates))[i] == dates[i]
    {
      TrimCenturyAfterExpand(dates[i]);
    }
  }

  // ---------------------------------------------------------------- interferogram date list

  const SupportedKinds: set<string> := {"interferograms", "coherence", "wrapped"}

  /**
    The group `igram_date_list` reads: "interferograms" if present, else "coherence",
    else the first group; anything but the three supported kinds is refused.
   */
  function SelectKind(keys: seq<string>): (r: Result<string, Error>)
    ensures r.Success? ==> r.value in SupportedKinds && r.value in keys
    ensures "interferograms" in keys ==> r == Success("interferograms")
    ensures "interferograms" !in keys && "coherence" in keys ==> r == Success("coherence")
    ensures "interferograms" !in keys && "coherence" !in keys && |keys| > 0 ==>
              r == if keys[0] == "wrapped" then Success("wrapped") else Failure(UnsupportedKind(keys[0]))
    ensures |keys| == 0 ==> r == Failure(NoGroups)
  {
    if "interferograms" in keys then Success("interferograms")
    else if "coherence" in keys then Success("coherence")
    else if |keys| == 0 then Failure(NoGroups)
    else if keys[0] in SupportedKinds then Success(keys[0])
    else Failure(UnsupportedKind(keys[0]))
  }

  /** The attributes of one interferogram dataset. */
  type Attrs = map<string, string>

  /** An interferogram file: its top-level group names in order, and each group's datasets. */
  datatype IgramFile = IgramFile(keys: seq<string>, groups: map<string, seq<Attrs>>)

  /** The two normalised dates of one dataset's `DATE12` attribute, "DATE1-DATE2". */
  function Date12Pair(attrs: Attrs): Result<(string, string), Error>
  {
    if "DATE12" !in attrs then Failure(MissingAttribute("DATE12"))
    else FirstTwoDates(attrs["DATE12"], Split(attrs["DATE12"], '-'))
  }

  /** The first two pieces of a split `DATE12`, normalised; fewer than two is an IndexError. */
  function FirstTwoDates(date12: string, pieces: seq<string>): Result<(string, string), Error>
  {
    if |pieces| < 2 then Failure(MissingSecondDate(date12))
    else Success((ToYyyymmdd(pieces[0]), ToYyyymmdd(pieces[1])))
  }

  /** Lines 98-99 of `igram_date_list` for one dataset: split `DATE12` on '-', normalise, take two. */
  method SplitDate12(attrs: Attrs) returns (pair: Result<(string, string), Error>)
    ensures pair == Date12Pair(attrs)
  {
    if "DATE12" !in attrs {
      return Failure(MissingAttribute("DATE12"));
    }
    var dates := ToYyyymmddList(Split(attrs["DATE12"], '-'));
    if |dates| < 2 {
      return Failure(MissingSecondDate(attrs["DATE12"]));
    }
    return Success((dates[0], dates[1]));
  }

  /** A `DATE12` without '-' has no second date; a missing one is a missing attribute. */
  lemma Date12PairFailures(attrs: Attrs)
    ensures "DATE12" !in attrs ==> Date12Pair(attrs) == Failure(MissingAttribute("DATE12"))
    ensures "DATE12" in attrs ==>
              (Date12Pair(attrs).Failure? <==> '-' !in attrs["DATE12"])
  {
  }

  /** A `DATE12` of the form "DATE1-DATE2" or "DATE1-DATE2-..." yields DATE1 and DATE2, normalised. */
  lemma Date12PairOfHalves(attrs: Attrs, date1: string, date2: string, rest: string)
    requires '-' !in date1 && '-' !in date2
    requires "DATE12" in attrs
    requires attrs["DATE12"] == date1 + "-" + date2 || attrs["DATE12"] == date1 + "-" + date2 + "-" + rest
    ensures Date12Pair(attrs) == Success((ToYyyymmdd(date1), ToYyyymmdd(date2)))
  {
    var tail := attrs["DATE12"][|date1| + 1..];
    assert attrs["DATE12"] == date1 + ['-'] + tail;
    SplitPrefix(date1, tail, '-');
    if tail == date2 {
      SplitNoSep(date2, '-');
    } else {
      assert tail == date2 + ['-'] + rest;
      SplitPrefix(date2, rest, '-');
    }
  }

  /** `d` is one of the two dates of one of the first `n` datasets. */
  ghost predicate DateAmong(records: seq<Attrs>, n: int, d: string)
    requires n <= |records|
  {
    exists i :: 0 <= i < n && Date12Pair(records[i]).Success?
                && (d == Date12Pair(records[i]).value.0 || d == Date12Pair(records[i]).value.1)
  }

  /** What a date list of the datasets is: strictly ascending, holding exactly their dates. */
  ghost predicate IsDateListOf(records: seq<Attrs>, dateList: seq<string>)
  {
    && StrictlySorted(dateList)
    && forall d :: d in dateList <==> DateAmong(records, |records|, d)
  }

  /** Reading fails at dataset `i` with `e`: the datasets before it are well-formed. */
  ghost predicate FailsFirstAt(records: seq<Attrs>, i: int, e: Error)
  {
    && 0 <= i < |records|
    && Date12Pair(records[i]) == Failure(e)
    && forall j :: 0 <= j < i ==> Date12Pair(records[j]).Success?
  }

  lemma AppendFresh(s: seq<string>, x: string)
    requires NoDuplicates(s) && x !in s
    ensures NoDuplicates(s + [x])
  {
    assert multiset(s + [x]) == multiset(s) + multiset{x};
  }

  /** The dates among the first `n + 1` datasets are those among the first `n` and dataset `n`'s. */
  lemma DateAmongStep(records: seq<Attrs>, n: int)
    requires 0 <= n < |records| && Date12Pair(records[n]).Success?
    ensures forall d :: DateAmong(records, n + 1, d) <==>
              DateAmong(records, n, d) || d == Date12Pair(records[n]).value.0 || d == Date12Pair(records[n]).value.1
  {
    var pair := Date12Pair(records[n]).value;
    assert DateAmong(records, n + 1, pair.0) && DateAmong(records, n + 1, pair.1) by {
      assert 0 <= n < n + 1 && Date12Pair(records[n]).Success?;
    }
  }

  /** The loop of `igram_date_list`: collect each dataset's dates once, then sort. */
  method CollectDates(records: seq<Attrs>) returns (result: Result<seq<string>, Error>)
    ensures result.Success? <==> forall i :: 0 <= i < |records| ==> Date12Pair(records[i]).Success?
    ensures result.Success? ==> IsDateListOf(records, result.value)
    ensures result.Failure? ==> exists i :: FailsFirstAt(records, i, result.error)
  {
    var dateList: seq<string> := [];
    for n := 0 to |records|
      invariant forall i :: 0 <= i < n ==> Date12Pair(records[i]).Success?
      invariant NoDuplicates(dateList)
      invariant forall d :: d in dateList <==> DateAmong(records, n, d)
    {
      var pair := SplitDate12(records[n]);
      if pair.Failure? {
        assert FailsFirstAt(records, n, pair.error);
        return Failure(pair.error);
      }
      assert forall i :: 0 <= i < n + 1 ==> Date12Pair(records[i]).Success?;
      var dates := [pair.value.0, pair.value.1];
      ghost var before := dateList;
      if dates[0] !in dateList {
        AppendFresh(dateList, dates[0]);
        dateList := dateList + [dates[0]];
      }
      if dates[1] !in dateList {
        AppendFresh(dateList, dates[1]);
        dateList := dateList + [dates[1]];
      }
      assert forall d :: d in dateList <==> d in before || d == dates[0] || d == dates[1];
      DateAmongStep(records, n);
    }
    var sorted := Sort(dateList);
    forall d ensures d in sorted <==> d in dateList {
      assert d in sorted <==> d in multiset(sorted);
    }
    SortedNoDuplicates(sorted);
    return Success(sorted);
  }

  /** `igram_date_list`: the sorted, duplicate-free dates of the selected group's datasets. */
  method IgramDateList(file: IgramFile) returns (result: Result<seq<string>, Error>)
    requires forall i :: 0 <= i < |file.keys| ==> file.keys[i] in file.groups
    ensures SelectKind(file.keys).Failure? ==> result == Failure(SelectKind(file.keys).error)
    ensures SelectKind(file.keys).Success? ==>
              var records := file.groups[SelectKind(file.keys).value];
              && (result.Success? <==> forall i :: 0 <= i < |records| ==> Date12Pair(records[i]).Success?)
              && (result.Success? ==> IsDateListOf(records, result.value))
              && (result.Failure? ==> exists i :: FailsFirstAt(records, i, result.error))
  {
    var kind := SelectKind(file.keys);
    if kind.Failure? {
      return Failure(kind.error);
    }
    result := CollectDates(file.groups[kind.value]);
  }

  // ---------------------------------------------------------------- text date list

  /** `read_date_list` after the file is read: normalise every line, then sort. */
  method ReadDateList(lines: seq<string>) returns (dateList: seq<string>)
    ensures |dateList| == |lines|
    ensures Sorted(dateList)
    ensures multiset(dateList) == multiset(ToYyyymmddAll(lines))
  {
    var normalized := ToYyyymmddList(lines);
    dateList := Sort(normalized);
    assert |dateList| == |multiset(dateList)| == |multiset(normalized)| == |normalized|;
  }

  // ---------------------------------------------------------------- index and baseline

  /** `date_index`: each date's position; a repeated date keeps its last position. */
  method DateIndex(dateList: seq<string>) returns (dateIndex: map<string, int>)
    ensures forall d :: d in dateIndex <==> d in dateList
    ensures forall d :: d in dateIndex ==>
              && 0 <= dateIndex[d] < |dateList| && dateList[dateIndex[d]] == d
              && forall j :: dateIndex[d] < j < |dateList| ==> dateList[j] != d
    ensures StrictlySorted(dateList) ==> forall i :: 0 <= i < |dateList| ==> dateIndex[dateList[i]] == i
  {
    dateIndex := map[];
    for ni := 0 to |dateList|
      invariant forall k :: 0 <= k < ni ==> dateList[k] in dateIndex
      invariant forall d :: d in dateIndex ==>
                  && 0 <= dateIndex[d] < ni && dateList[dateIndex[d]] == d
                  && forall j :: dateIndex[d] < j < ni ==> dateList[j] != d
    {
      dateIndex := dateIndex[dateList[ni] := ni];
    }
  }

  /** Every date of the list parses under `strptime(s, "%Y%m%d")`. */
  predicate AllParse(dateList: seq<string>)
  {
    forall i :: 0 <= i < |dateList| ==> ParseDate(dateList[i]).Some?
  }

  /** The temporal baselines: days from the first date to each date. */
  function Tbase(dateList: seq<string>): seq<int>
    requires |dateList| > 0 && AllParse(dateList)
  {
    seq(|dateList|, i requires 0 <= i < |dateList| => DayNumberOf(dateList[i]) - DayNumberOf(dateList[0]))
  }

  /** The two results of `date_list2tbase`: baselines as a list and keyed by date. */
  datatype Baseline = Baseline(tbase: seq<int>, dateDict: map<string, int>)

  /**
    The second loop of `date_list2tbase`: a dictionary from each date to the value at its
    position; a repeated date keeps the value at its last position.
   */
  method KeyByDate(dateList: seq<string>, values: seq<int>) returns (dateDict: map<string, int>)
    requires |values| == |dateList|
    ensures forall d :: d in dateDict <==> d in dateList
    ensures forall d :: d in dateDict ==>
              exists i :: && 0 <= i < |dateList| && dateList[i] == d && dateDict[d] == values[i]
                          && forall j :: i < j < |dateList| ==> dateList[j] != d
  {
    dateDict := map[];
    for n := 0 to |dateList|
      invariant forall k :: 0 <= k < n ==> dateList[k] in dateDict
      invariant forall d :: d in dateDict ==>
                  exists i :: && 0 <= i < n && dateList[i] == d && dateDict[d] == values[i]
                              && forall j :: i < j < n ==> dateList[j] != d
    {
      dateDict := dateDict[dateList[n] := values[n]];
    }
  }

  /**
    `date_list2tbase`: parse the first date, then every date in order, recording the
    difference in days; then key the differences by date.
   */
  method DateListToTbase(dateList: seq<string>) returns (result: Result<Baseline, Error>)
    ensures |dateList| == 0 ==> result == Failure(EmptyDateList)
    ensures |dateList| > 0 ==> (result.Success? <==> AllParse(dateList))
    ensures result.Failure? && |dateList| > 0 ==>
              exists i :: && 0 <= i < |dateList| && result.error == BadDate(dateList[i])
                          && ParseDate(dateList[i]).None?
                          && forall j :: 0 <= j < i ==> ParseDate(dateList[j]).Some?
    ensures result.Success? ==> |dateList| > 0 && AllParse(dateList)
    ensures result.Success? ==>
              && result.value.tbase == Tbase(dateList)
              && result.value.tbase[0] == 0
              && (forall d :: d in result.value.dateDict <==> d in dateList)
              && forall i :: 0 <= i < |dateList| ==> result.value.dateDict[dateList[i]] == result.value.tbase[i]
  {
    if |dateList| == 0 {
      return Failure(EmptyDateList);
    }
    var d1 := ParseDate(dateList[0]);
    if d1.None? {
      return Failure(BadDate(dateList[0]));
    }
    ghost var first := DayNumberOf(dateList[0]);
    var tbase: seq<int> := [];
    for ni := 0 to |dateList|
      invariant |tbase| == ni
      invariant forall k :: 0 <= k < ni ==> ParseDate(dateList[k]).Some? && tbase[k] == DayNumberOf(dateList[k]) - first
    {
      var d2 := ParseDate(dateList[ni]);
      if d2.None? {
        return Failure(BadDate(dateList[ni]));
      }
      tbase := tbase + [DayNumber(d2.value) - DayNumber(d1.value)];
    }
    assert tbase == Tbase(dateList);
    var dateDict := KeyByDate(dateList, tbase);
    return Success(Baseline(tbase, dateDict));
  }

  /**
    Baselines follow the list order: a list of valid dates is sorted exactly when its
    baselines never decrease, and then no baseline is negative.
   */
  lemma SortedIffBaselinesNondecreasing(dateList: seq<string>)
    requires |dateList| > 0 && AllParse(dateList)
    ensures Sorted(dateList) <==> forall i, j :: 0 <= i < j < |dateList| ==> Tbase(dateList)[i] <= Tbase(dateList)[j]
    ensures Sorted(dateList) ==> forall i :: 0 <= i < |dateList| ==> Tbase(dateList)[i] >= 0
  {
    var t := Tbase(dateList);
    forall i, j | 0 <= i < j < |dateList|
      ensures LexLe(dateList[i], dateList[j]) <==> t[i] <= t[j]
    {
      StringOrderIsChronological(dateList[i], dateList[j]);
    }
    if Sorted(dateList) {
      forall i | 0 < i < |dateList| ensures t[i] >= 0 {
        StringOrderIsChronological(dateList[0], dateList[i]);
      }
    }
  }

  /** The numeric fields of the date strings used below. */
  lemma FieldValues()
    ensures Value("2006") == 2006
    ensures Value("01") == 1 && Value("02") == 2 && Value("03") == 3
  {
    assert "2006"[..3] == "200" && "200"[..2] == "20" && "20"[..1] == "2" && "2"[..0] == "";
    assert "01"[..1] == "0" && "02"[..1] == "0" && "03"[..1] == "0" && "0"[..0] == "";
  }

  /** `strptime` reads year, month and day from the three fields of an 8-digit string. */
  lemma DateFields(y: string, m: string, d: string)
    requires |y| == 4 && |m| == 2 && |d| == 2
    ensures (y + m + d)[..4] == y && (y + m + d)[4..6] == m && (y + m + d)[6..] == d
  {
  }

  /** Parsing the first day of a month of 2006 written as "2006" + month + "01". */
  lemma ParseFirstOfMonth(m: string, month: int)
    requires m in ["01", "02", "03"] && Value(m) == month
    ensures ParseDate("2006" + m + "01") == Some(Date(2006, month, 1))
  {
    var s := "2006" + m + "01";
    DateFields("2006", m, "01");
    FieldValues();
    assert AllDigits(s);
  }

  /**
    The baselines of 1 January, 1 February and 1 March 2006, a non-leap year:
    0, 31 and 59 days.
   */
  lemma BaselineExample()
    ensures AllParse(["20060101", "20060201", "20060301"])
    ensures Tbase(["20060101", "20060201", "20060301"]) == [0, 31, 59]
  {
    FieldValues();
    ParseFirstOfMonth("01", 1);
    ParseFirstOfMonth("02", 2);
    ParseFirstOfMonth("03", 3);
    assert "2006" + "01" + "01" == "20060101";
    assert "2006" + "02" + "01" == "20060201";
    assert "2006" + "03" + "01" == "20060301";
    var dates := ["20060101", "20060201", "20060301"];
    assert AllParse(dates);
    assert DayNumberOf(dates[1]) - DayNumberOf(dates[0]) == 31;
    assert DayNumberOf(dates[2]) - DayNumberOf(dates[0]) == 59;
  }
}
