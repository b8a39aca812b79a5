/** Where the launcher's arguments come from (`getArgs`, identical in the three entry
    points): the command line when it has any, otherwise the first line of
    `poisonivy.config` split on single spaces. */
module LaunchArgs {
  import opened Common
  import opened JavaText

  const PoisonIvyConfig := "poisonivy.config"

  /** `poisonivy.config` as `getArgs` sees it: missing, or present with its first line
      (None when the file is empty, as BufferedReader.readLine returns null). */
  datatype ConfigFile = Missing | Present(firstLine: Option<string>)

  /** The arguments to parse, or a System.exit after the help text, or an exception. */
  datatype ArgsOutcome = Args(args: seq<string>) | Exit(status: int) | Failed(error: Exception)

  /** `parsePoisonIvyConfig`: the first line split on " "; an empty file has no first
      line and `cmdline.split` dereferences null. */
  function ParsePoisonIvyConfig(firstLine: Option<string>): (r: Result<seq<string>>)
    ensures r.Throw? <==> firstLine.None?
    ensures r.Throw? ==> r.error == NullPointer
    ensures r.Ok? ==> forall k :: 0 <= k < |r.value| ==> ' ' !in r.value[k]
    ensures r.Ok? && ' ' !in firstLine.value ==> r.value == [firstLine.value]
  {
    if firstLine.None? then Throw(NullPointer) else Ok(Split(firstLine.value))
  }

  /** `getArgs`: null or empty arguments with no config file print the help text and
      exit with -1; null arguments beside a config file fail on `args.length`;
      non-empty arguments are used unchanged; empty ones are replaced by the config
      file's first line. */
  function GetArgs(args: Option<seq<string>>, config: ConfigFile): (r: ArgsOutcome)
    ensures (args.None? || args.value == []) && config.Missing? ==> r == Exit(-1)
    ensures args.None? && config.Present? ==> r == Failed(NullPointer)
    ensures args.Some? && args.value != [] ==> r == Args(args.value)
    ensures args == Some([]) && config.Present? ==>
      match ParsePoisonIvyConfig(config.firstLine)
      case Ok(parts) => r == Args(parts)
      case Throw(e) => r == Failed(e)
  {
    if (args.None? || |args.value| == 0) && config.Missing? then Exit(-1)
    else if args.None? then Failed(NullPointer)
    else if |args.value| > 0 then Args(args.value)
    else
      match ParsePoisonIvyConfig(config.firstLine)
      case Ok(parts) => Args(parts)
      case Throw(e) => Failed(e)
  }

  /** A config line that does not end in a space is given back by joining the
      arguments taken from it with single spaces. */
  lemma ConfigLineRoundTrip(line: string)
    requires |line| > 0 && line[|line| - 1] != ' '
    ensures ParsePoisonIvyConfig(Some(line)).Ok?
    ensures |ParsePoisonIvyConfig(Some(line)).value| >= 1
    ensures Join(ParsePoisonIvyConfig(Some(line)).value) == line
  {
    if ' ' in line {
      var all := SplitAll(line);
      SplitAllLastEmpty(line);
      assert DropTrailingEmpty(all) == all;
      JoinSplitAll(line);
    }
  }

  /** The last piece between spaces is empty exactly when the string is empty or ends
      in a space. */
  lemma {:induction false} SplitAllLastEmpty(s: string)
    ensures var parts := SplitAll(s);
      parts[|parts| - 1] == "" <==> |s| == 0 || s[|s| - 1] == ' '
  {
    if |s| > 0 {
      var rest := SplitAll(s[1..]);
      SplitAllLastEmpty(s[1..]);
      if s[0] != ' ' && |rest| == 1 {
        JoinSplitAll(s[1..]);
        assert s[1..] == rest[0];
        if |s| > 1 {
          assert s[|s| - 1] == s[1..][|s| - 2];
        }
      } else if |s| > 1 {
        assert s[|s| - 1] == s[1..][|s| - 2];
      }
    }
  }

  /** An empty config line gives one empty argument, and a line of spaces alone gives
      none. */
  lemma DegenerateConfigLines()
    ensures ParsePoisonIvyConfig(Some("")) == Ok([""])
    ensures ParsePoisonIvyConfig(Some("  ")) == Ok([])
  {
    assert SplitAll(" ") == [""] + SplitAll("");
    assert SplitAll("  ") == [""] + SplitAll(" ");
    assert ' ' in "  " by {
      assert "  "[0] == ' ';
    }
  }
}
