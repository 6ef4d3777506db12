/** What the administrator's list endpoints promise: every failed check is
    reported and nothing else is, an accepted query has a page window
    inside its bounds, the sort object holds the last direction given for
    each field, and the page count covers the total. */
module AdminProps {
  import opened Js
  import opened Admin

  /** The sort check fails exactly when `sort` is given and one of its
      non-blank terms is not an optional `-` followed by word characters. */
  lemma SortRejection(sort: Option<string>)
    ensures SortCheck(sort) != [] <==>
      Given(sort) && exists k :: 0 <= k < |SortParts(Split(sort.value, ','))| && !SortTerm(SortParts(Split(sort.value, ','))[k])
  {
    if Given(sort) && FirstInvalid(SortParts(Split(sort.value, ','))).Some? {
      var k := SortNamesFirst(sort);
    }
  }

  /** A failed sort check names the first bad term, at index `k`. */
  lemma SortNamesFirst(sort: Option<string>) returns (k: nat)
    requires SortCheck(sort) != []
    ensures Given(sort)
    ensures k < |SortParts(Split(sort.value, ','))|
    ensures !SortTerm(SortParts(Split(sort.value, ','))[k])
    ensures SortCheck(sort) == [SortProblem(SortParts(Split(sort.value, ','))[k])]
    ensures forall j :: 0 <= j < k ==> SortTerm(SortParts(Split(sort.value, ','))[j])
  {
    var parts := SortParts(Split(sort.value, ','));
    var found := FirstInvalid(parts);
    k :| 0 <= k < |parts| && parts[k] == found.value && forall j :: 0 <= j < k ==> SortTerm(parts[j]);
  }

  /** No problem is listed for two checks. */
  ghost predicate DistinctProblems(checks: seq<(bool, Problem)>) {
    forall i, j :: 0 <= i < j < |checks| ==> checks[i].1 != checks[j].1
  }

  /** A problem no check lists is never reported. */
  lemma {:induction false} NotReported(checks: seq<(bool, Problem)>, p: Problem)
    requires forall i :: 0 <= i < |checks| ==> checks[i].1 != p
    ensures p !in Failed(checks)
    decreases |checks|
  {
    if |checks| > 0 {
      NotReported(checks[..|checks| - 1], p);
    }
  }

  /** A check's problem is reported exactly when the check fails. */
  lemma {:induction false} FailedAt(checks: seq<(bool, Problem)>, k: int)
    requires DistinctProblems(checks) && 0 <= k < |checks|
    ensures checks[k].1 in Failed(checks) <==> checks[k].0
    decreases |checks|
  {
    var n := |checks| - 1;
    var init := checks[..n];
    var last := checks[n];
    var tail := if last.0 then [last.1] else [];
    assert Failed(checks) == Failed(init) + tail;
    if k < n {
      assert DistinctProblems(init);
      FailedAt(init, k);
      assert init[k] == checks[k];
      assert checks[k].1 != last.1;
    } else {
      NotReported(init, last.1);
    }
  }

  lemma ResultsChecksDistinct(c: Coercions, q: ResultsQuery)
    ensures DistinctProblems(ResultsChecks(c, q))
    ensures forall k :: 0 <= k < |ResultsChecks(c, q)| ==> !ResultsChecks(c, q)[k].1.SortProblem?
  {
  }

  /** `listResults` reports the problem of each of its checks exactly when
      the check fails. */
  lemma ResultsChecksIff(c: Coercions, q: ResultsQuery)
    ensures forall k :: 0 <= k < |ResultsChecks(c, q)| ==>
      (ResultsChecks(c, q)[k].1 in ResultsProblems(c, q) <==> ResultsChecks(c, q)[k].0)
    ensures forall p :: p in Failed(ResultsChecks(c, q)) ==> !p.SortProblem?
  {
    var checks := ResultsChecks(c, q);
    ResultsChecksDistinct(c, q);
    forall k | 0 <= k < |checks|
      ensures checks[k].1 in ResultsProblems(c, q) <==> checks[k].0
    {
      FailedAt(checks, k);
    }
    forall p: Problem | p.SortProblem?
      ensures p !in Failed(checks)
    {
      NotReported(checks, p);
    }
  }

  /** `listResults` finds no problem exactly when every check passes. */
  lemma ResultsClean(c: Coercions, q: ResultsQuery)
    ensures ResultsProblems(c, q) == [] <==>
      !BadPage(c, q.page) && !BadLimit(c, q.limit, 100) && !BadId(c, q.exam) && !BadId(c, q.user)
      && !BadNumber(c, q.minScore) && !BadNumber(c, q.maxScore) && !BadDate(c, q.from) && !BadDate(c, q.to)
      && SortCheck(q.sort) == []
  {
    var checks := ResultsChecks(c, q);
    assert checks[0].0 == BadPage(c, q.page) && checks[1].0 == BadLimit(c, q.limit, 100);
    assert checks[2].0 == BadId(c, q.exam) && checks[3].0 == BadId(c, q.user);
    assert checks[4].0 == BadNumber(c, q.minScore) && checks[5].0 == BadNumber(c, q.maxScore);
    assert checks[6].0 == BadDate(c, q.from) && checks[7].0 == BadDate(c, q.to);
  }

  /** `listAuditLogs` finds no problem exactly when every check passes. */
  lemma AuditClean(c: Coercions, q: AuditQuery)
    ensures Failed(AuditChecks(c, q)) == [] <==>
      !BadPage(c, q.page) && !BadLimit(c, q.limit, 500) && !BadId(c, q.user) && !BadDate(c, q.from) && !BadDate(c, q.to)
  {
    var checks := AuditChecks(c, q);
    assert checks[0].0 == BadPage(c, q.page) && checks[1].0 == BadLimit(c, q.limit, 500);
    assert checks[2].0 == BadId(c, q.user) && checks[3].0 == BadDate(c, q.from) && checks[4].0 == BadDate(c, q.to);
  }

  /** `listResults` reports a sort problem exactly when the sort check
      fails, and only for a term that fails the pattern. */
  lemma ResultsSortProblem(c: Coercions, q: ResultsQuery)
    ensures (exists t :: SortProblem(t) in ResultsProblems(c, q)) <==> SortCheck(q.sort) != []
    ensures forall t :: SortProblem(t) in ResultsProblems(c, q) ==> !SortTerm(t)
  {
    ResultsChecksIff(c, q);
    var sortCheck := SortCheck(q.sort);
    if sortCheck != [] {
      var t := sortCheck[0].term;
      assert SortProblem(t) in ResultsProblems(c, q);
    }
  }

  /** A `listResults` query is refused exactly when some check fails, and
      the refusal carries one message per failure, in the order the checks
      run. */
  lemma ResultsRejectedIff(c: Coercions, q: ResultsQuery, reading: Reading)
    ensures ListResults(c, q, reading).Rejected? <==>
      BadPage(c, q.page) || BadLimit(c, q.limit, 100) || BadId(c, q.exam) || BadId(c, q.user)
      || BadNumber(c, q.minScore) || BadNumber(c, q.maxScore) || BadDate(c, q.from) || BadDate(c, q.to)
      || SortCheck(q.sort) != []
    ensures ListResults(c, q, reading).Rejected? ==> ListResults(c, q, reading).errors == Messages(ResultsProblems(c, q))
  {
    ResultsClean(c, q);
  }

  lemma AuditChecksDistinct(c: Coercions, q: AuditQuery)
    ensures DistinctProblems(AuditChecks(c, q))
  {
  }

  /** `listAuditLogs` reports the problem of each of its checks exactly
      when the check fails, and is refused exactly when one fails. */
  lemma AuditChecksIff(c: Coercions, q: AuditQuery, reading: Reading)
    ensures forall k :: 0 <= k < |AuditChecks(c, q)| ==>
      (AuditChecks(c, q)[k].1 in Failed(AuditChecks(c, q)) <==> AuditChecks(c, q)[k].0)
    ensures ListAuditLogs(c, q, reading).Rejected? <==>
      BadPage(c, q.page) || BadLimit(c, q.limit, 500) || BadId(c, q.user) || BadDate(c, q.from) || BadDate(c, q.to)
    ensures ListAuditLogs(c, q, reading).Rejected? ==> ListAuditLogs(c, q, reading).errors == Messages(Failed(AuditChecks(c, q)))
  {
    AuditClean(c, q);
    var checks := AuditChecks(c, q);
    AuditChecksDistinct(c, q);
    forall k | 0 <= k < |checks|
      ensures checks[k].1 in Failed(checks) <==> checks[k].0
    {
      FailedAt(checks, k);
    }
  }

  lemma LimitMessages()
    ensures Message(LimitProblem(100)) == "limit must be an integer between 1 and 100"
    ensures Message(LimitProblem(500)) == "limit must be an integer between 1 and 500"
  {
    assert NatText(100) == "100" by {
      assert NatText(10) == "10";
    }
    assert NatText(500) == "500" by {
      assert NatText(50) == "50";
    }
  }

  // ---------------------------------------------------------------------
  // The page window

  lemma ParseOne()
    ensures ParseInt("1") == Some(1)
  {
    assert TrimStart("1") == "1";
    assert DigitRun("1") == 1;
    assert DecimalValue("1") == 1 by {
      assert "1"[..0] == [];
    }
  }

  lemma ParseTwenty()
    ensures ParseInt("20") == Some(20) && ParseInt("50") == Some(50)
  {
    assert TrimStart("20") == "20" && TrimStart("50") == "50";
    assert DigitRun("20") == 2 && DigitRun("50") == 2;
    assert "20"[..2] == "20" && "20"[..1] == "2" && "2"[..0] == [];
    assert "50"[..2] == "50" && "50"[..1] == "5" && "5"[..0] == [];
  }

  lemma PageBounds(c: Coercions, reading: Reading, raw: Option<string>)
    ensures PageOf(c, reading, raw).Some? ==> PageOf(c, reading, raw).value >= 1
    ensures !Given(raw) ==> PageOf(c, reading, raw) == Some(1)
  {
    if !Given(raw) {
      ParseOne();
    }
  }

  lemma LimitBounds(c: Coercions, reading: Reading, raw: Option<string>, fallback: string, cap: int)
    requires cap >= 1
    ensures LimitOf(c, reading, raw, fallback, cap).Some? ==> 1 <= LimitOf(c, reading, raw, fallback, cap).value <= cap
  {
  }

  /** The rows skipped are whole pages before the current one. */
  lemma SkipBounds(page: Option<int>, limit: Option<int>)
    requires page.Some? ==> page.value >= 1
    requires limit.Some? ==> limit.value >= 1
    ensures SkipOf(page, limit).Some? <==> page.Some? && limit.Some?
    ensures SkipOf(page, limit).Some? ==> SkipOf(page, limit).value >= 0
    ensures SkipOf(page, limit).Some? ==> SkipOf(page, limit).value == (page.value - 1) * limit.value
  {
    if page.Some? && limit.Some? {
      assert (page.value - 1) * limit.value >= 0 by {
        assert page.value - 1 >= 0;
      }
    }
  }

  /** A listing that passed validation pages with the query's page and
      limit as read, and skips the rows of the pages before. */
  lemma ResultsSlice(c: Coercions, q: ResultsQuery, reading: Reading)
    requires ListResults(c, q, reading).Listing?
    ensures var l := ListResults(c, q, reading);
            var page := PageOf(c, reading, q.page);
            var limit := LimitOf(c, reading, q.limit, "20", 100);
            l.page == page && l.limit == limit && l.skip == SkipOf(page, limit)
  {
  }

  /** The results window: page at least 1, limit between 1 and 100, the
      rows skipped are the whole pages before, and the defaults are page 1
      of 20 rows. */
  lemma ResultsWindow(c: Coercions, q: ResultsQuery, reading: Reading)
    ensures var page := PageOf(c, reading, q.page);
            var limit := LimitOf(c, reading, q.limit, "20", 100);
            var skip := SkipOf(page, limit);
            && (page.Some? ==> page.value >= 1)
            && (limit.Some? ==> 1 <= limit.value <= 100)
            && (skip.Some? ==> skip.value >= 0 && skip.value == (page.value - 1) * limit.value)
            && (!Given(q.page) ==> page == Some(1))
            && (!Given(q.limit) ==> limit == Some(20))
  {
    var page := PageOf(c, reading, q.page);
    var limit := LimitOf(c, reading, q.limit, "20", 100);
    PageBounds(c, reading, q.page);
    LimitBounds(c, reading, q.limit, "20", 100);
    SkipBounds(page, limit);
    if !Given(q.limit) {
      assert limit == Some(20) by {
        ParseTwenty();
      }
    }
  }

  /** The same for audit logs, which are always newest first. */
  lemma AuditSlice(c: Coercions, q: AuditQuery, reading: Reading)
    requires ListAuditLogs(c, q, reading).Listing?
    ensures var l := ListAuditLogs(c, q, reading);
            var page := PageOf(c, reading, q.page);
            var limit := LimitOf(c, reading, q.limit, "50", 500);
            && l.page == page && l.limit == limit && l.skip == SkipOf(page, limit)
            && l.sort == [SortKey("createdAt", -1)]
  {
  }

  /** The audit window: page at least 1, limit between 1 and 500, whole
      pages skipped, and the defaults are page 1 of 50 rows. */
  lemma AuditWindow(c: Coercions, q: AuditQuery, reading: Reading)
    ensures var page := PageOf(c, reading, q.page);
            var limit := LimitOf(c, reading, q.limit, "50", 500);
            var skip := SkipOf(page, limit);
            && (page.Some? ==> page.value >= 1)
            && (limit.Some? ==> 1 <= limit.value <= 500)
            && (skip.Some? ==> skip.value >= 0 && skip.value == (page.value - 1) * limit.value)
            && (!Given(q.page) ==> page == Some(1))
            && (!Given(q.limit) ==> limit == Some(50))
  {
    var page := PageOf(c, reading, q.page);
    var limit := LimitOf(c, reading, q.limit, "50", 500);
    PageBounds(c, reading, q.page);
    LimitBounds(c, reading, q.limit, "50", 500);
    SkipBounds(page, limit);
    if !Given(q.limit) {
      assert limit == Some(50) by {
        ParseTwenty();
      }
    }
  }

  /** The page count is the least positive number of pages of `limit`
      rows that holds all `total` rows. */
  lemma PagesCover(total: nat, limit: int)
    requires limit >= 1
    ensures var pages := Pages(total, Some(limit));
            && pages >= 1
            && total <= pages * limit
            && (total > 0 ==> (pages - 1) * limit < total)
            && (total == 0 ==> pages == 1)
  {
    var c := (total + limit - 1) / limit;
    var r := (total + limit - 1) % limit;
    assert total + limit - 1 == c * limit + r;
    if total > 0 {
      assert c >= 1;
    }
  }

  /** A NaN limit still reports one page. */
  lemma PagesOfNaN(total: nat)
    ensures Pages(total, None) == 1
  {
  }

  // ---------------------------------------------------------------------
  // The filter

  /** Both score bounds survive when both are given: the second does not
      replace the first. */
  lemma ScoreBoundsMerge(c: Coercions, q: ResultsQuery, reading: Reading)
    requires ListResults(c, q, reading).Listing?
    ensures var f := ListResults(c, q, reading).filter;
            && (f.score.Some? <==> q.minScore.Some? || q.maxScore.Some?)
            && (q.minScore.Some? ==> f.score.value.gte == Some(c.number(q.minScore.value)) && !c.number(q.minScore.value).NaN?)
            && (q.maxScore.Some? ==> f.score.value.lte == Some(c.number(q.maxScore.value)) && !c.number(q.maxScore.value).NaN?)
            && (q.minScore.None? && f.score.Some? ==> f.score.value.gte.None?)
            && (q.maxScore.None? && f.score.Some? ==> f.score.value.lte.None?)
  {
    ResultsClean(c, q);
  }

  /** The date window holds each non-empty bound as the time it parses to. */
  lemma DateBoundsMerge(c: Coercions, q: ResultsQuery, reading: Reading)
    requires ListResults(c, q, reading).Listing?
    ensures var f := ListResults(c, q, reading).filter;
            && (f.createdAt.Some? <==> Given(q.from) || Given(q.to))
            && (Given(q.from) ==> f.createdAt.value.gte == c.dateParse(q.from.value) && c.dateParse(q.from.value).Some?)
            && (Given(q.to) ==> f.createdAt.value.lte == c.dateParse(q.to.value) && c.dateParse(q.to.value).Some?)
  {
    ResultsClean(c, q);
  }

  /** An exam or user filter is present exactly when the parameter is
      non-empty, and then it is a valid id. */
  lemma IdFilters(c: Coercions, q: ResultsQuery, reading: Reading)
    requires ListResults(c, q, reading).Listing?
    ensures var f := ListResults(c, q, reading).filter;
            && (f.exam.Some? <==> Given(q.exam)) && (f.user.Some? <==> Given(q.user))
            && (f.exam.Some? ==> f.exam == q.exam && c.isObjectId(q.exam.value))
            && (f.user.Some? ==> f.user == q.user && c.isObjectId(q.user.value))
  {
    ResultsClean(c, q);
  }

  // ---------------------------------------------------------------------
  // The sort object

  /** The direction an object of sort keys holds for `field`. */
  function Lookup(sort: seq<SortKey>, field: string): Option<int> {
    if |sort| == 0 then None
    else if sort[0].field == field then Some(sort[0].direction)
    else Lookup(sort[1..], field)
  }

  /** The field a non-blank sort term names and the direction it asks for. */
  function TermField(key: string): string
    requires key != ""
  {
    if key[0] == '-' then key[1..] else key
  }

  function TermDirection(key: string): int
    requires key != ""
  {
    if key[0] == '-' then -1 else 1
  }

  /** The direction of the last term naming `field`, read from the end. */
  function LastDirection(parts: seq<string>, field: string): Option<int> {
    if |parts| == 0 then None
    else
      var key := Trim(parts[|parts| - 1]);
      if key != "" && TermField(key) == field then Some(TermDirection(key))
      else LastDirection(parts[..|parts| - 1], field)
  }

  ghost predicate DistinctFields(sort: seq<SortKey>) {
    forall i, j :: 0 <= i < j < |sort| ==> sort[i].field != sort[j].field
  }

  lemma {:induction false} AssignLookup(sort: seq<SortKey>, g: string, d: int, f: string)
    ensures Lookup(Assign(sort, g, d), f) == if f == g then Some(d) else Lookup(sort, f)
    decreases |sort|
  {
    if |sort| > 0 && sort[0].field != g {
      AssignLookup(sort[1..], g, d, f);
    }
  }

  /** `sort[g] = d` makes `g` read `d` and leaves every other field alone,
      except that `__proto__` is never set. */
  lemma SetKeyLookup(sort: seq<SortKey>, g: string, d: int, f: string)
    ensures Lookup(SetKey(sort, g, d), f) == if f == g && g != ProtoKey then Some(d) else Lookup(sort, f)
  {
    if g != ProtoKey {
      AssignLookup(sort, g, d, f);
    }
  }

  lemma LookupMissing(sort: seq<SortKey>, f: string)
    ensures Lookup(sort, f).None? <==> forall i :: 0 <= i < |sort| ==> sort[i].field != f
  {
  }

  lemma {:induction false} AssignDistinct(sort: seq<SortKey>, g: string, d: int)
    requires DistinctFields(sort)
    ensures DistinctFields(Assign(sort, g, d))
    decreases |sort|
  {
    if |sort| > 0 && sort[0].field != g {
      var first := sort[0];
      var rest := Assign(sort[1..], g, d);
      AssignDistinct(sort[1..], g, d);
      LookupMissing(sort[1..], first.field);
      AssignLookup(sort[1..], g, d, first.field);
      LookupMissing(rest, first.field);
      assert Assign(sort, g, d) == [first] + rest;
    } else if |sort| > 0 {
      assert Assign(sort, g, d) == [SortKey(g, d)] + sort[1..];
    }
  }

  /** The sort object holds, for every field other than `__proto__`, the
      direction of the last term naming it; it never holds `__proto__`; and
      it holds each field once. */
  lemma {:induction false} ParseSortLast(parts: seq<string>, field: string)
    ensures field != ProtoKey ==> Lookup(ParseSort(parts), field) == LastDirection(parts, field)
    ensures Lookup(ParseSort(parts), ProtoKey) == None
    ensures DistinctFields(ParseSort(parts))
    decreases |parts|
  {
    if |parts| > 0 {
      var init := parts[..|parts| - 1];
      var sort := ParseSort(init);
      ParseSortLast(init, field);
      var key := Trim(parts[|parts| - 1]);
      if key != "" {
        SetKeyLookup(sort, TermField(key), TermDirection(key), field);
        SetKeyLookup(sort, TermField(key), TermDirection(key), ProtoKey);
        if TermField(key) != ProtoKey {
          AssignDistinct(sort, TermField(key), TermDirection(key));
        }
      }
    }
  }

  lemma ProtoKeyIsWord()
    ensures Trim(ProtoKey) == ProtoKey && SortTerm(ProtoKey) && ',' !in ProtoKey
  {
    forall k | 0 <= k < |ProtoKey|
      ensures WordChar(ProtoKey[k]) && ProtoKey[k] != ','
    {
      assert ProtoKey[k] in ['_', 'p', 'r', 'o', 't'];
    }
    assert !IsSpace(ProtoKey[0]) && !IsSpace(ProtoKey[|ProtoKey| - 1]);
    assert TrimStart(ProtoKey) == ProtoKey;
  }

  /** `sort=__proto__` passes the pattern and leaves the sort object empty,
      so the results come in the database's natural order. */
  lemma ProtoSortIsEmpty()
    ensures SortCheck(Some(ProtoKey)) == []
    ensures SortOf(Some(ProtoKey)) == []
  {
    ProtoKeyIsWord();
    SplitNone(ProtoKey, ',');
    var parts := [ProtoKey];
    assert parts[..0] == [];
    assert SortParts(parts) == [ProtoKey];
    assert FirstInvalid([ProtoKey]) == None;
    assert ParseSort(parts) == SetKey([], ProtoKey, 1);
  }

  /** Without `sort`, results come newest first. */
  lemma DefaultSort(sort: Option<string>)
    requires !Given(sort)
    ensures Lookup(SortOf(sort), "createdAt") == Some(-1) && |SortOf(sort)| == 1
  {
  }

  // ---------------------------------------------------------------------
  // Reading the window parameters

  /** Under the validated reading, an accepted `limit` is the integer that
      validation checked. */
  lemma ValidatedLimitIsChecked(c: Coercions, q: ResultsQuery)
    requires ListResults(c, q, AsValidated).Listing? && Given(q.limit)
    ensures IsInteger(c.number(q.limit.value))
    ensures ListResults(c, q, AsValidated).limit == Some(c.number(q.limit.value).value.Floor)
    ensures ListResults(c, q, AsValidated).limit.value as real == c.number(q.limit.value).value
  {
    ResultsClean(c, q);
  }

  /** Under the validated reading, an accepted `page` is the integer that
      validation checked. */
  lemma ValidatedPageIsChecked(c: Coercions, q: ResultsQuery)
    requires ListResults(c, q, AsValidated).Listing? && Given(q.page)
    ensures IsInteger(c.number(q.page.value))
    ensures ListResults(c, q, AsValidated).page.value as real == c.number(q.page.value).value
  {
    ResultsClean(c, q);
  }

  lemma ParseExponent()
    ensures ParseInt("1e2") == Some(1)
  {
    assert TrimStart("1e2") == "1e2";
    assert DigitRun("1e2") == 1 by {
      assert "1e2"[1..] == "e2";
    }
    assert "1e2"[..1] == "1" && "1"[..0] == [];
  }

  lemma {:induction false} NatTextDigits(n: nat)
    ensures |NatText(n)| >= 1
    ensures forall k :: 0 <= k < |NatText(n)| ==> IsDigit(NatText(n)[k])
    decreases n
  {
    if n >= 10 {
      NatTextDigits(n / 10);
      NatTextDigits(n % 10);
    }
  }

  lemma DecimalSnoc(ds: string, c: char)
    requires forall k :: 0 <= k < |ds| ==> IsDigit(ds[k])
    requires IsDigit(c)
    ensures DecimalValue(ds + [c]) == DecimalValue(ds) * 10 + DigitValue(c)
  {
    assert (ds + [c])[..|ds|] == ds;
  }

  /** Reading back the decimal text of a number gives the number. */
  lemma {:induction false} NatTextValue(n: nat)
    ensures forall k :: 0 <= k < |NatText(n)| ==> IsDigit(NatText(n)[k])
    ensures DecimalValue(NatText(n)) == n
    decreases n
  {
    NatTextDigits(n);
    if n >= 10 {
      NatTextValue(n / 10);
      NatTextDigits(n % 10);
      var last := NatText(n % 10);
      assert |last| == 1;
      assert NatText(n) == NatText(n / 10) + [last[0]];
      DecimalSnoc(NatText(n / 10), last[0]);
    }
  }

  /** `parseInt` reads the decimal text of a number back as that number. */
  lemma ParseNatText(n: nat)
    ensures ParseInt(NatText(n)) == Some(n)
  {
    var t := NatText(n);
    NatTextValue(n);
    assert !IsSpace(t[0]) by {
      assert IsDigit(t[0]);
    }
    assert TrimStart(t) == t;
    DigitRunAll(t);
    assert t[..|t|] == t;
  }

  lemma {:induction false} DigitRunAll(s: string)
    requires forall k :: 0 <= k < |s| ==> IsDigit(s[k])
    ensures DigitRun(s) == |s|
    decreases |s|
  {
    if |s| > 0 {
      DigitRunAll(s[1..]);
    }
  }

  /** For a limit written as plain decimal digits, both readings agree:
      the two differ only on text that `Number` and `parseInt` read
      differently. */
  lemma ReadingsAgreeOnDecimals(c: Coercions, q: ResultsQuery, n: nat)
    requires q.limit == Some(NatText(n)) && c.number(NatText(n)) == Finite(n as real)
    ensures LimitOf(c, AsWritten, q.limit, "20", 100) == LimitOf(c, AsValidated, q.limit, "20", 100)
  {
    ParseNatText(n);
    NatTextDigits(n);
    assert (n as real).Floor == n;
  }

  /** As written, `limit=1e2` passes validation as the integer 100 (which
      `Number('1e2')` is) but the query reads it with `parseInt` as 1. */
  lemma ExponentLimitAsWritten(c: Coercions)
    requires c.number("1e2") == Finite(100.0)
    ensures var q := ResultsQuery(None, Some("1e2"), None, None, None, None, None, None, None);
            && ListResults(c, q, AsWritten).Listing?
            && ListResults(c, q, AsWritten).limit == Some(1)
            && ListResults(c, q, AsValidated).limit == Some(100)
  {
    ParseExponent();
    var q := ResultsQuery(None, Some("1e2"), None, None, None, None, None, None, None);
    assert !BadLimit(c, q.limit, 100);
    assert ResultsProblems(c, q) == [];
  }
}
