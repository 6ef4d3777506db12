/** What the export script promises: every cell reads back as the text it
    was built from, a row reads back as its nine cells, the header line
    splits into the column names, an argument `--k=v` sets `k` to `v`, and
    an environment variable beats the argument of the same setting. */
module ExportProps {
  import opened Js
  import opened Codec
  import opened Admin
  import opened Export

  // ---------------------------------------------------------------------
  // Cells and rows

  /** A quoted field ends at the first quote that is not doubled, so the
      escaped text followed by a closing quote reads back as the text, as
      long as no quote follows the closing one. */
  lemma {:induction false} ReadEscaped(s: string, rest: string)
    requires rest == "" || rest[0] != '"'
    ensures ReadQuoted(Escape(s) + "\"" + rest) == Some((s, rest))
    decreases |s|
  {
    var input := Escape(s) + "\"" + rest;
    if |s| == 0 {
      assert input == "\"" + rest;
      assert input[1..] == rest;
    } else if s[0] == '"' {
      ReadEscaped(s[1..], rest);
      assert input == "\"\"" + (Escape(s[1..]) + "\"" + rest);
      assert input[2..] == Escape(s[1..]) + "\"" + rest;
      assert "\"" + s[1..] == s;
    } else {
      ReadEscaped(s[1..], rest);
      assert input == [s[0]] + (Escape(s[1..]) + "\"" + rest);
      assert input[1..] == Escape(s[1..]) + "\"" + rest;
      assert [s[0]] + s[1..] == s;
    }
  }

  /** `safe` is undone by unquoting: a string comes back unchanged, and
      `null`/`undefined` come back as the empty string, which `safe` writes
      the same way. */
  lemma UnquoteSafe(v: Option<string>)
    ensures Unquote(Safe(v)) == Some(if v.Some? then v.value else "")
    ensures Safe(None) == Safe(Some("")) && |Safe(None)| == 2
  {
    var s := if v.Some? then v.value else "";
    ReadEscaped(s, "");
    assert Safe(v) == "\"" + (Escape(s) + "\"" + "");
    assert Escape("") == "";
  }

  /** The quoted cells of a row. */
  function QuotedCells(cells: seq<string>): (r: seq<string>)
    ensures |r| == |cells|
  {
    seq(|cells|, i requires 0 <= i < |cells| => Safe(Some(cells[i])))
  }

  lemma RowLineCons(cells: seq<string>)
    requires |cells| >= 2
    ensures RowLine(cells) == Safe(Some(cells[0])) + "," + RowLine(cells[1..])
  {
    var quoted := QuotedCells(cells);
    assert quoted == [quoted[0]] + QuotedCells(cells[1..]);
    JoinCons(quoted[0], QuotedCells(cells[1..]), ',');
  }

  /** The last field of a record: its closing quote is followed by the line
      break. */
  lemma ReadLastField(f: string)
    ensures ReadRecord(Safe(Some(f)) + "\n") == Some([f])
  {
    var line := Safe(Some(f)) + "\n";
    assert line[0] == '"' && line[1..] == Escape(f) + "\"" + "\n";
    ReadEscaped(f, "\n");
  }

  /** A field followed by a comma: the record is the field and then the
      record that follows the comma. */
  lemma ReadNextField(f: string, tail: string)
    ensures ReadRecord(Safe(Some(f)) + "," + tail)
         == if ReadRecord(tail).Some? then Some([f] + ReadRecord(tail).value) else None
  {
    var rest := "," + tail;
    var line := Safe(Some(f)) + "," + tail;
    assert line[0] == '"' && line[1..] == Escape(f) + "\"" + rest;
    ReadEscaped(f, rest);
    assert rest != "\n" && rest[0] == ',' && rest[1..] == tail;
  }

  lemma RowLineOne(cells: seq<string>)
    requires |cells| == 1
    ensures RowLine(cells) == Safe(Some(cells[0])) + "\n"
  {
    assert QuotedCells(cells) == [Safe(Some(cells[0]))];
  }

  /** A row written by the script reads back, field by field, as the cells
      it was built from. */
  lemma {:induction false} RowReadsBack(cells: seq<string>)
    requires |cells| >= 1
    ensures ReadRecord(RowLine(cells)) == Some(cells)
    decreases |cells|
  {
    if |cells| == 1 {
      RowLineOne(cells);
      ReadLastField(cells[0]);
      assert [cells[0]] == cells;
    } else {
      RowLineCons(cells);
      RowReadsBack(cells[1..]);
      ReadNextField(cells[0], RowLine(cells[1..]));
      assert [cells[0]] + cells[1..] == cells;
    }
  }

  /** Every exported result is one line of nine fields, one per column, that
      read back as the result's cells. */
  lemma ResultRowReadsBack(rt: Runtime, isoDate: int -> string, r: StoredResult)
    ensures ReadRecord(RowLine(Cells(rt, isoDate, r))) == Some(Cells(rt, isoDate, r))
    ensures |Cells(rt, isoDate, r)| == |Headers| == 9
  {
    RowReadsBack(Cells(rt, isoDate, r));
  }

  lemma HeaderHasNoComma(k: nat)
    requires k < |Headers|
    ensures ',' !in Headers[k]
  {
    if k < 3 {
      assert Headers[k] in ["resultId", "examId", "examTitle"];
    } else if k < 6 {
      assert Headers[k] in ["userId", "userEmail", "score"];
    } else {
      assert Headers[k] in ["total", "createdAt", "answersJson"];
    }
  }

  /** The header line splits on commas into the nine column names. */
  lemma HeaderColumns()
    ensures Split(HeaderLine()[..|HeaderLine()| - 1], ',') == Headers
  {
    var joined := Join(Headers, ',');
    assert HeaderLine()[..|HeaderLine()| - 1] == joined;
    forall k | 0 <= k < |Headers|
      ensures ',' !in Headers[k]
    {
      HeaderHasNoComma(k);
    }
    JoinSplit(Headers, ',');
  }

  // ---------------------------------------------------------------------
  // Arguments

  /** The first two parts of a text with two separators. */
  lemma SplitTwo(a: string, b: string, rest: string, sep: char)
    requires sep !in a && sep !in b
    ensures var parts := Split(a + [sep] + b + [sep] + rest, sep);
      |parts| >= 2 && parts[0] == a && parts[1] == b
  {
    assert a + [sep] + b + [sep] + rest == a + [sep] + (b + [sep] + rest);
    SplitAt(a, b + [sep] + rest, sep);
    SplitAt(b, rest, sep);
  }

  lemma StripOnce(k: string)
    ensures StripDashes("--" + k) == k
  {
    assert ("--" + k)[..2] == "--";
  }

  /** `--k=v` sets `k` to `v` when neither holds an `=`. */
  lemma ArgRoundTrip(k: string, v: string)
    requires '=' !in k && '=' !in v
    ensures ParseArg("--" + k + "=" + v) == Arg(k, v)
  {
    var key := "--" + k;
    StripOnce(k);
    assert '=' !in key;
    SplitAt(key, v, '=');
    SplitNone(v, '=');
    assert "--" + k + "=" + v == key + ['='] + v;
  }

  /** Anything after a second `=` is dropped. */
  lemma ArgDropsAfterSecondEquals(k: string, v: string, dropped: string)
    requires '=' !in k && '=' !in v
    ensures ParseArg("--" + k + "=" + v + "=" + dropped) == Arg(k, v)
  {
    assert '=' !in "--" + k;
    SplitTwo("--" + k, v, dropped, '=');
    StripOnce(k);
  }

  /** An argument without `=` is a key with the empty value. */
  lemma ArgWithoutValue(a: string)
    requires '=' !in a
    ensures ParseArg(a) == Arg(StripDashes(a), "")
  {
    SplitNone(a, '=');
  }

  /** The value of the last argument with key `key`, reading from the end. */
  function LastValue(args: seq<string>, key: string): Option<string> {
    if |args| == 0 then None
    else if ParseArg(args[|args| - 1]).key == key then Some(ParseArg(args[|args| - 1]).value)
    else LastValue(args[..|args| - 1], key)
  }

  /** `argv.key` is the value of the last argument with that key, and absent
      when no argument has it. */
  lemma {:induction false} ArgvLastWins(args: seq<string>, key: string)
    ensures key in Argv(args) <==> LastValue(args, key).Some?
    ensures key in Argv(args) ==> Argv(args)[key] == LastValue(args, key).value
    decreases |args|
  {
    if |args| > 0 {
      ArgvLastWins(args[..|args| - 1], key);
    }
  }

  // ---------------------------------------------------------------------
  // The filter

  /** A non-empty environment variable decides its setting whatever the
      arguments say. */
  lemma EnvBeatsArgv(c: Coercions, env: Env, argv1: map<string, string>, argv2: map<string, string>)
    ensures Given(env.exam) ==> Filter(c, env, argv1).exam == Filter(c, env, argv2).exam == env.exam
    ensures Given(env.email) ==> Filter(c, env, argv1).email == Filter(c, env, argv2).email == env.email
    ensures Given(env.minScore) && Given(env.maxScore) ==>
      Filter(c, env, argv1).score == Filter(c, env, argv2).score
        == Some(Range(Some(c.number(env.minScore.value)), Some(c.number(env.maxScore.value))))
    ensures Given(env.from) && Given(env.to) ==>
      Filter(c, env, argv1).createdAt == Filter(c, env, argv2).createdAt
        == Some(Range(Some(c.dateParse(env.from.value)), Some(c.dateParse(env.to.value))))
  {
  }

  /** With the variable unset or empty, a non-empty argument decides. */
  lemma ArgvFallsBack(c: Coercions, env: Env, argv: map<string, string>)
    requires !Given(env.exam) && !Given(env.minScore) && !Given(env.maxScore)
    ensures Filter(c, env, argv).exam == if "exam" in argv && argv["exam"] != "" then Some(argv["exam"]) else None
    ensures Filter(c, env, argv).score.Some? <==>
      ("minScore" in argv && argv["minScore"] != "") || ("maxScore" in argv && argv["maxScore"] != "")
  {
  }

  /** Score bounds from different sources merge into one range. */
  lemma ScoreBoundsMerge(c: Coercions, env: Env, argv: map<string, string>)
    requires Given(env.minScore) && !Given(env.maxScore) && "maxScore" in argv && argv["maxScore"] != ""
    ensures Filter(c, env, argv).score
         == Some(Range(Some(c.number(env.minScore.value)), Some(c.number(argv["maxScore"]))))
  {
  }
}
