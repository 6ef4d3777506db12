/** The results export script: its `--key=value` arguments, the filter it
    builds from the environment and the arguments, and the CSV it writes,
    one quoted cell per column. The database query and the file stream are
    not modelled. */
module Export {
  import opened Js
  import opened Codec
  import opened Admin

  // ---------------------------------------------------------------------
  // Arguments

  /** An argument's key and value as `Object.fromEntries` receives them. */
  datatype Arg = Arg(key: string, value: string)

  /** `k.replace(/^--/, '')`: one leading `--` removed. */
  function StripDashes(k: string): string {
    if StartsWith(k, "--") then k[2..] else k
  }

  /** `const [k, v] = a.split('=')` then `[k without --, v ?? '']`: the value
      is the text between the first and second `=`. */
  function ParseArg(a: string): Arg {
    var parts := Split(a, '=');
    Arg(StripDashes(parts[0]), if |parts| >= 2 then parts[1] else "")
  }

  /** `Object.fromEntries(args.map(...))`: a later argument with the same key
      overwrites an earlier one. */
  function Argv(args: seq<string>): map<string, string> {
    if |args| == 0 then map[]
    else
      var a := ParseArg(args[|args| - 1]);
      Argv(args[..|args| - 1])[a.key := a.value]
  }

  /** The environment variables the script reads; `None` is unset. */
  datatype Env = Env(
    exam: Option<string>, email: Option<string>, minScore: Option<string>, maxScore: Option<string>,
    from: Option<string>, to: Option<string>)

  /** `process.env.X || argv.key`: a non-empty variable wins, otherwise the
      argument, which may be absent. */
  function Setting(env: Option<string>, argv: map<string, string>, key: string): Option<string> {
    if Given(env) then env else if key in argv then Some(argv[key]) else None
  }

  /** The query the script runs. `createdAt` bounds are `new Date(x)`, whose
      time value is `None` for an invalid date: nothing validates them. The
      user lookup by `email` is a database query; the model keeps the email
      it would look up. */
  datatype ExportFilter = ExportFilter(
    exam: Option<string>, email: Option<string>, score: Option<Range<Num>>, createdAt: Option<Range<Option<int>>>)

  function Filter(c: Coercions, env: Env, argv: map<string, string>): ExportFilter {
    var exam := Setting(env.exam, argv, "exam");
    var email := Setting(env.email, argv, "email");
    var low := Setting(env.minScore, argv, "minScore");
    var high := Setting(env.maxScore, argv, "maxScore");
    var from := Setting(env.from, argv, "from");
    var to := Setting(env.to, argv, "to");
    ExportFilter(
      if Given(exam) then exam else None,
      if Given(email) then email else None,
      Bounds(if Given(low) then Some(c.number(low.value)) else None,
             if Given(high) then Some(c.number(high.value)) else None),
      Bounds(if Given(from) then Some(c.dateParse(from.value)) else None,
             if Given(to) then Some(c.dateParse(to.value)) else None))
  }

  // ---------------------------------------------------------------------
  // CSV cells

  /** Every `"` doubled: `s.replace(/"/g, '""')`. */
  function Escape(s: string): (r: string)
    ensures |r| >= |s|
  {
    if |s| == 0 then ""
    else (if s[0] == '"' then "\"\"" else [s[0]]) + Escape(s[1..])
  }

  /** `safe(val)`: `""` for `null` or `undefined` (`None`), otherwise the
      text in double quotes with its quotes doubled. */
  function Safe(v: Option<string>): (r: string)
    ensures |r| >= 2 && r[0] == '"' && r[|r| - 1] == '"'
  {
    match v
    case None => "\"\""
    case Some(s) => "\"" + Escape(s) + "\""
  }

  const Headers: seq<string> :=
    ["resultId", "examId", "examTitle", "userId", "userEmail", "score", "total", "createdAt", "answersJson"]

  /** `headers.join(',') + '\n'` */
  function HeaderLine(): string {
    Join(Headers, ',') + "\n"
  }

  /** A populated reference: the document's id and its title or email, if
      it has one; `NoRef` when population found nothing (`null`). */
  datatype Ref = Doc(id: string, name: Option<string>) | NoRef

  /** A stored result as the export query returns it. */
  datatype StoredResult = StoredResult(
    id: string, exam: Ref, user: Ref, score: Option<real>, total: Option<real>,
    createdAt: Option<int>, answers: Option<Json>)

  /** `String(ref?._id ?? ref)`: a missing document prints as `null`. */
  function RefId(r: Ref): string {
    match r
    case Doc(id, _) => id
    case NoRef => "null"
  }

  /** `ref?.title ?? ''` and `ref?.email ?? ''` */
  function RefLabel(r: Ref): string {
    match r
    case Doc(_, name) => if name.Some? then name.value else ""
    case NoRef => ""
  }

  /** `String(x ?? '')` for a number that may be missing. */
  function NumberCell(x: Option<real>, numberText: real -> string): string {
    if x.Some? then numberText(x.value) else ""
  }

  /** The nine cells of a result's row, in header order. `isoDate` is
      `new Date(t).toISOString()`. */
  function Cells(rt: Runtime, isoDate: int -> string, r: StoredResult): (cells: seq<string>)
    ensures |cells| == |Headers|
  {
    [r.id,
     RefId(r.exam),
     RefLabel(r.exam),
     RefId(r.user),
     RefLabel(r.user),
     NumberCell(r.score, rt.numberText),
     NumberCell(r.total, rt.numberText),
     if r.createdAt.Some? then isoDate(r.createdAt.value) else "",
     rt.stringify(if r.answers.Some? && Truthy(r.answers.value) then r.answers.value else JArr([]))]
  }

  /** `row.map(safe).join(',') + '\n'` */
  function RowLine(cells: seq<string>): string
    requires |cells| >= 1
  {
    Join(seq(|cells|, i requires 0 <= i < |cells| => Safe(Some(cells[i]))), ',') + "\n"
  }

  // ---------------------------------------------------------------------
  // Reading a record back, as section 2 of RFC 4180 defines quoted fields

  /** The rest of a quoted field after its opening quote: a doubled quote is
      one quote, a single quote closes the field. Returns the field's text
      and what follows the closing quote. */
  function ReadQuoted(s: string): (r: Option<(string, string)>)
    ensures r.Some? ==> |r.value.1| < |s|
    decreases |s|
  {
    if |s| == 0 then None
    else if s[0] == '"' then
      if |s| >= 2 && s[1] == '"' then
        match ReadQuoted(s[2..])
        case None => None
        case Some(p) => Some(("\"" + p.0, p.1))
      else Some(("", s[1..]))
    else
      match ReadQuoted(s[1..])
      case None => None
      case Some(p) => Some(([s[0]] + p.0, p.1))
  }

  /** One record of quoted fields separated by commas and ended by a line
      break. */
  function ReadRecord(s: string): Option<seq<string>>
    decreases |s|
  {
    if |s| == 0 || s[0] != '"' then None
    else
      match ReadQuoted(s[1..])
      case None => None
      case Some(p) =>
        if p.1 == "\n" then Some([p.0])
        else if |p.1| > 0 && p.1[0] == ',' then
          match ReadRecord(p.1[1..])
          case None => None
          case Some(fields) => Some([p.0] + fields)
        else None
  }

  /** A single quoted field read back. */
  function Unquote(field: string): Option<string> {
    if |field| > 0 && field[0] == '"' then
      match ReadQuoted(field[1..])
      case Some(p) => if p.1 == "" then Some(p.0) else None
      case None => None
    else None
  }
}
