/** The administrator's list endpoints, `listResults` and `listAuditLogs`:
    validation of the query string with every error collected, then the
    filter, sort and page window the database query is built from.

    `Number(s)`, `mongoose.isValidObjectId(s)` and `Date.parse(s)` are
    parameters (`Coercions`); `parseInt(s, 10)` is modelled. */
module Admin {
  import opened Js

  /** A JavaScript number as `Number(s)` can produce it. */
  datatype Num = NaN | Infinite(positive: bool) | Finite(value: real)

  /** `Number.isInteger(n)` */
  predicate IsInteger(n: Num) {
    n.Finite? && n.value == n.value.Floor as real
  }

  datatype Coercions = Coercions(
    number: string -> Num,             // Number(s)
    isObjectId: string -> bool,        // mongoose.isValidObjectId(s)
    dateParse: string -> Option<int>)  // Date.parse(s); None for NaN

  /** `listResults`'s query string; `None` is an absent parameter. */
  datatype ResultsQuery = ResultsQuery(
    page: Option<string>, limit: Option<string>, exam: Option<string>, user: Option<string>,
    minScore: Option<string>, maxScore: Option<string>, from: Option<string>, to: Option<string>,
    sort: Option<string>)

  /** `listAuditLogs`'s query string. */
  datatype AuditQuery = AuditQuery(
    page: Option<string>, limit: Option<string>, user: Option<string>, action: Option<string>,
    from: Option<string>, to: Option<string>)

  /** A present, non-empty parameter (`if (x)`). */
  predicate Given(o: Option<string>) {
    o.Some? && o.value != ""
  }

  // ---------------------------------------------------------------------
  // parseInt(s, 10)

  predicate IsDigit(c: char) {
    '0' <= c <= '9'
  }

  /** How many decimal digits `s` starts with. */
  function DigitRun(s: string): (n: nat)
    ensures n <= |s|
    ensures forall k :: 0 <= k < n ==> IsDigit(s[k])
    ensures n < |s| ==> !IsDigit(s[n])
  {
    if |s| > 0 && IsDigit(s[0]) then 1 + DigitRun(s[1..]) else 0
  }

  /** The value of a string of decimal digits. */
  function DecimalValue(ds: string): nat
    requires forall k :: 0 <= k < |ds| ==> IsDigit(ds[k])
  {
    if |ds| == 0 then 0
    else DecimalValue(ds[..|ds| - 1]) * 10 + DigitValue(ds[|ds| - 1])
  }

  function DigitValue(c: char): nat
    requires IsDigit(c)
  {
    c as int - '0' as int
  }

  /** `parseInt(s, 10)`: leading white space and one sign are skipped, then
      the longest run of digits is read; with no digit the result is NaN
      (`None`). */
  function ParseInt(s: string): Option<int> {
    var t := TrimStart(s);
    var negative := |t| > 0 && t[0] == '-';
    var body := if |t| > 0 && (t[0] == '-' || t[0] == '+') then t[1..] else t;
    var n := DigitRun(body);
    if n == 0 then None
    else
      var v: int := DecimalValue(body[..n]);
      Some(if negative then -v else v)
  }

  // ---------------------------------------------------------------------
  // Validation

  predicate WordChar(c: char) {
    ('a' <= c <= 'z') || ('A' <= c <= 'Z') || IsDigit(c) || c == '_'
  }

  /** `/^\-?[a-zA-Z0-9_]+$/.test(p)` */
  predicate SortTerm(p: string) {
    var name := if |p| > 0 && p[0] == '-' then p[1..] else p;
    |name| > 0 && forall k :: 0 <= k < |name| ==> WordChar(name[k])
  }

  /** `split(',').map(s => s.trim()).filter(Boolean)` */
  function SortParts(parts: seq<string>): (r: seq<string>)
    ensures forall k :: 0 <= k < |r| ==> r[k] != ""
  {
    if |parts| == 0 then []
    else
      var init := SortParts(parts[..|parts| - 1]);
      var p := Trim(parts[|parts| - 1]);
      if p != "" then init + [p] else init
  }

  /** `sortParts.find(p => !regex.test(p))` */
  function FirstInvalid(parts: seq<string>): (r: Option<string>)
    ensures r.Some? ==> !SortTerm(r.value) && r.value in parts
    ensures r.Some? ==> exists k :: 0 <= k < |parts| && parts[k] == r.value && forall j :: 0 <= j < k ==> SortTerm(parts[j])
    ensures r.None? ==> forall k :: 0 <= k < |parts| ==> SortTerm(parts[k])
  {
    if |parts| == 0 then None
    else if !SortTerm(parts[0]) then Some(parts[0])
    else FirstInvalid(parts[1..])
  }

  /** A failed check, one per message the handlers can report. */
  datatype Problem =
    | PageProblem
    | LimitProblem(cap: nat)
    | ExamProblem
    | UserProblem
    | MinScoreProblem
    | MaxScoreProblem
    | FromProblem
    | ToProblem
    | SortProblem(term: string)

  /** The decimal text of a natural number. */
  function NatText(n: nat): string {
    if n < 10 then [('0' as int + n) as char] else NatText(n / 10) + NatText(n % 10)
  }

  /** The text the handlers put in `errors` for a problem. */
  function Message(p: Problem): string {
    match p
    case PageProblem => "page must be an integer >= 1"
    case LimitProblem(cap) => "limit must be an integer between 1 and " + NatText(cap)
    case ExamProblem => "exam must be a valid ObjectId"
    case UserProblem => "user must be a valid ObjectId"
    case MinScoreProblem => "minScore must be a number"
    case MaxScoreProblem => "maxScore must be a number"
    case FromProblem => "from must be a valid date"
    case ToProblem => "to must be a valid date"
    case SortProblem(term) => "sort contains invalid field: " + term
  }

  function Messages(ps: seq<Problem>): (r: seq<string>)
    ensures |r| == |ps| && forall k :: 0 <= k < |ps| ==> r[k] == Message(ps[k])
  {
    seq(|ps|, k requires 0 <= k < |ps| => Message(ps[k]))
  }

  /** The problems of the checks that failed, in the order of the checks. */
  function Failed(checks: seq<(bool, Problem)>): (r: seq<Problem>)
    ensures r == [] <==> forall k :: 0 <= k < |checks| ==> !checks[k].0
  {
    if |checks| == 0 then []
    else
      var init := Failed(checks[..|checks| - 1]);
      var last := checks[|checks| - 1];
      assert checks == checks[..|checks| - 1] + [last];
      if last.0 then init + [last.1] else init
  }

  predicate BadPage(c: Coercions, page: Option<string>) {
    page.Some? && (!IsInteger(c.number(page.value)) || c.number(page.value).value < 1.0)
  }

  predicate BadLimit(c: Coercions, limit: Option<string>, cap: int) {
    limit.Some? && (!IsInteger(c.number(limit.value))
                    || c.number(limit.value).value < 1.0 || c.number(limit.value).value > cap as real)
  }

  predicate BadId(c: Coercions, id: Option<string>) {
    id.Some? && !c.isObjectId(id.value)
  }

  predicate BadNumber(c: Coercions, x: Option<string>) {
    x.Some? && c.number(x.value).NaN?
  }

  predicate BadDate(c: Coercions, x: Option<string>) {
    x.Some? && c.dateParse(x.value).None?
  }

  /** The sort problem, if `sort` is given and has a bad term. */
  function SortCheck(sort: Option<string>): (r: seq<Problem>)
    ensures |r| <= 1
    ensures forall k :: 0 <= k < |r| ==> r[k].SortProblem? && !SortTerm(r[k].term)
  {
    if Given(sort) then
      match FirstInvalid(SortParts(Split(sort.value, ',')))
      case Some(term) => [SortProblem(term)]
      case None => []
    else []
  }

  /** `listResults`'s checks other than the sort check, in the order they run. */
  function ResultsChecks(c: Coercions, q: ResultsQuery): seq<(bool, Problem)> {
    [(BadPage(c, q.page), PageProblem),
     (BadLimit(c, q.limit, 100), LimitProblem(100)),
     (BadId(c, q.exam), ExamProblem),
     (BadId(c, q.user), UserProblem),
     (BadNumber(c, q.minScore), MinScoreProblem),
     (BadNumber(c, q.maxScore), MaxScoreProblem),
     (BadDate(c, q.from), FromProblem),
     (BadDate(c, q.to), ToProblem)]
  }

  function ResultsProblems(c: Coercions, q: ResultsQuery): seq<Problem> {
    Failed(ResultsChecks(c, q)) + SortCheck(q.sort)
  }

  /** `listAuditLogs`'s checks, in the order they run. */
  function AuditChecks(c: Coercions, q: AuditQuery): seq<(bool, Problem)> {
    [(BadPage(c, q.page), PageProblem),
     (BadLimit(c, q.limit, 500), LimitProblem(500)),
     (BadId(c, q.user), UserProblem),
     (BadDate(c, q.from), FromProblem),
     (BadDate(c, q.to), ToProblem)]
  }

  // ---------------------------------------------------------------------
  // The query

  /** One field of the sort object and its direction. */
  datatype SortKey = SortKey(field: string, direction: int)

  /** The name of `Object.prototype`'s accessor; the sort pattern admits it. */
  const ProtoKey: string := "__proto__"

  /** `sort[field] = direction` on an object kept as its keys in insertion
      order: an existing key keeps its place. Assigning a number to
      `__proto__` goes to the prototype setter, which ignores anything but an
      object or `null`, so that key is never set. */
  function SetKey(sort: seq<SortKey>, field: string, direction: int): seq<SortKey> {
    if field == ProtoKey then sort else Assign(sort, field, direction)
  }

  /** An own data property set or replaced in place. */
  function Assign(sort: seq<SortKey>, field: string, direction: int): seq<SortKey> {
    if |sort| == 0 then [SortKey(field, direction)]
    else if sort[0].field == field then [SortKey(field, direction)] + sort[1..]
    else [sort[0]] + Assign(sort[1..], field, direction)
  }

  /** The loop over `split(',')`: blank parts are skipped, `-f` sets `f` to
      -1 and any other part sets itself to 1. */
  function ParseSort(parts: seq<string>): seq<SortKey> {
    if |parts| == 0 then []
    else
      var sort := ParseSort(parts[..|parts| - 1]);
      var key := Trim(parts[|parts| - 1]);
      if key == "" then sort
      else if key[0] == '-' then SetKey(sort, key[1..], -1)
      else SetKey(sort, key, 1)
  }

  /** The sort object: `{createdAt: -1}` unless `sort` is given. */
  function SortOf(sort: Option<string>): seq<SortKey> {
    if Given(sort) then ParseSort(Split(sort.value, ',')) else [SortKey("createdAt", -1)]
  }

  /** How the page window reads `page` and `limit`: `AsWritten` re-reads the
      raw text with `parseInt(raw || fallback, 10)`, as the handlers do;
      `AsValidated` uses the integer `Number(raw)` that validation accepted. */
  datatype Reading = AsWritten | AsValidated

  /** The integer a window parameter is read as; `None` is NaN. */
  function ReadInt(c: Coercions, reading: Reading, raw: Option<string>, fallback: string): Option<int> {
    match reading
    case AsWritten => ParseInt(if Given(raw) then raw.value else fallback)
    case AsValidated =>
      if Given(raw) && IsInteger(c.number(raw.value)) then Some(c.number(raw.value).value.Floor)
      else ParseInt(fallback)
  }

  /** `Math.max(1, n)`; NaN passes through `Math.max`. */
  function PageOf(c: Coercions, reading: Reading, raw: Option<string>): Option<int> {
    match ReadInt(c, reading, raw, "1")
    case None => None
    case Some(n) => Some(if n < 1 then 1 else n)
  }

  /** `Math.max(1, Math.min(cap, n))` */
  function LimitOf(c: Coercions, reading: Reading, raw: Option<string>, fallback: string, cap: int): Option<int> {
    match ReadInt(c, reading, raw, fallback)
    case None => None
    case Some(n) => Some(if n > cap then cap else if n < 1 then 1 else n)
  }

  /** `(page - 1) * limit` */
  function SkipOf(page: Option<int>, limit: Option<int>): Option<int> {
    if page.Some? && limit.Some? then Some((page.value - 1) * limit.value) else None
  }

  /** `Math.ceil(total / limit) || 1` */
  function Pages(total: nat, limit: Option<int>): int {
    match limit
    case Some(l) =>
      if l >= 1 then
        var c := (total + l - 1) / l;
        if c == 0 then 1 else c
      else 1
    case None => 1
  }

  /** `{$gte, $lte}` as the filter builds it. */
  datatype Range<T> = Range(gte: Option<T>, lte: Option<T>)

  datatype ResultsFilter = ResultsFilter(
    exam: Option<string>, user: Option<string>, score: Option<Range<Num>>, createdAt: Option<Range<int>>)

  datatype AuditFilter = AuditFilter(
    user: Option<string>, action: Option<string>, createdAt: Option<Range<int>>)

  /** The bounds two optional parameters contribute; absent when neither does. */
  function Bounds<T>(low: Option<T>, high: Option<T>): Option<Range<T>> {
    if low.None? && high.None? then None else Some(Range(low, high))
  }

  function ScoreRange(c: Coercions, q: ResultsQuery): Option<Range<Num>> {
    Bounds(if q.minScore.Some? then Some(c.number(q.minScore.value)) else None,
           if q.maxScore.Some? then Some(c.number(q.maxScore.value)) else None)
  }

  /** `new Date(x)` for a given `from`/`to`, as its time value. */
  function DateBound(c: Coercions, x: Option<string>): Option<int> {
    if Given(x) && c.dateParse(x.value).Some? then c.dateParse(x.value) else None
  }

  /** The handler's outcome: 400 with the errors, or the query it runs. */
  datatype Listing<F> =
    | Rejected(errors: seq<string>)
    | Listing(filter: F, sort: seq<SortKey>, page: Option<int>, limit: Option<int>, skip: Option<int>)

  function ListResults(c: Coercions, q: ResultsQuery, reading: Reading): Listing<ResultsFilter> {
    var problems := ResultsProblems(c, q);
    if |problems| > 0 then Rejected(Messages(problems))
    else
      var page := PageOf(c, reading, q.page);
      var limit := LimitOf(c, reading, q.limit, "20", 100);
      var filter := ResultsFilter(
        if Given(q.exam) then q.exam else None,
        if Given(q.user) then q.user else None,
        ScoreRange(c, q),
        Bounds(DateBound(c, q.from), DateBound(c, q.to)));
      Listing(filter, SortOf(q.sort), page, limit, SkipOf(page, limit))
  }

  function ListAuditLogs(c: Coercions, q: AuditQuery, reading: Reading): Listing<AuditFilter> {
    var problems := Failed(AuditChecks(c, q));
    if |problems| > 0 then Rejected(Messages(problems))
    else
      var page := PageOf(c, reading, q.page);
      var limit := LimitOf(c, reading, q.limit, "50", 500);
      var filter := AuditFilter(
        if Given(q.user) then q.user else None,
        if Given(q.action) then q.action else None,
        Bounds(DateBound(c, q.from), DateBound(c, q.to)));
      Listing(filter, [SortKey("createdAt", -1)], page, limit, SkipOf(page, limit))
  }
}
