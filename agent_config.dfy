/** The agent's configuration (src/bin/agent.rs `load_config`): environment
    values first, then command-line options, scanned left to right so that
    a later option overrides an earlier one; and the report URL built from
    the endpoint. */
module AgentConfig {
  import opened Common
  import opened Text

  const DEFAULT_INTERVAL: nat := 5
  /** The desktop-computer emoji, with its emoji presentation selector. */
  const DEFAULT_FLAG: string := "\U{1F5A5}\U{FE0F}"

  /** The variables IMONITOR_TOKEN, IMONITOR_ENDPOINT, IMONITOR_INTERVAL
      and IMONITOR_FLAG, each absent or holding text. */
  datatype Env = Env(token: Option<string>, endpoint: Option<string>, interval: Option<string>, flag: Option<string>)

  /** The settings gathered so far; an interval that did not parse is `None`. */
  datatype Settings = Settings(token: Option<string>, endpoint: Option<string>, interval: Option<nat>, flag: Option<string>)

  datatype Config = Config(token: string, endpoint: string, interval: nat, flag: string)

  /** Parsed intervals are `u64` values. */
  predicate IntervalFits(st: Settings) {
    st.interval.None? || IsU64(st.interval.value)
  }

  function FromEnv(env: Env): (st: Settings)
    ensures IntervalFits(st)
  {
    Settings(env.token, env.endpoint,
             match env.interval case Some(v) => ParseU64(v) case None => None,
             env.flag)
  }

  /** The options that take their value from the next argument. */
  predicate IsBareOption(arg: string) {
    arg == "--token" || arg == "--endpoint" || arg == "--interval" || arg == "--flag"
  }

  /** `--name value`: the value replaces the setting; an interval that does
      not parse clears it. */
  function SetOption(st: Settings, option: string, value: string): Settings
    requires IsBareOption(option)
  {
    if option == "--token" then st.(token := Some(value))
    else if option == "--endpoint" then st.(endpoint := Some(value))
    else if option == "--interval" then st.(interval := ParseU64(value))
    else st.(flag := Some(value))
  }

  /** Any other argument: a `--name=value` form sets that setting; anything else is ignored. */
  function SetInline(st: Settings, arg: string): Settings {
    if StartsWith(arg, "--token=") then st.(token := Some(arg[8..]))
    else if StartsWith(arg, "--endpoint=") then st.(endpoint := Some(arg[11..]))
    else if StartsWith(arg, "--interval=") then st.(interval := ParseU64(arg[11..]))
    else if StartsWith(arg, "--flag=") then st.(flag := Some(arg[7..]))
    else st
  }

  /** The argument scan: a bare option consumes the next argument as its
      value, whatever it is; a bare option with nothing after it is ignored. */
  function ScanArgs(args: seq<string>, st: Settings): (r: Settings)
    ensures IntervalFits(st) ==> IntervalFits(r)
    decreases |args|
  {
    if |args| == 0 then st
    else if IsBareOption(args[0]) then
      if |args| == 1 then st else ScanArgs(args[2..], SetOption(st, args[0], args[1]))
    else ScanArgs(args[1..], SetInline(st, args[0]))
  }

  /** Whether the scan of `args` ends on a bare option still waiting for its value. */
  predicate EndsOnBareOption(args: seq<string>)
    decreases |args|
  {
    if |args| == 0 then false
    else if IsBareOption(args[0]) then |args| == 1 || EndsOnBareOption(args[2..])
    else EndsOnBareOption(args[1..])
  }

  /** `load_config`, given the program's arguments (the first being the
      program name) and its environment. */
  function LoadConfig(argv: seq<string>, env: Env): (r: Result<Config, string>)
    ensures r == Err("missing --token") <==> ScanArgs(if |argv| == 0 then [] else argv[1..], FromEnv(env)).token.None?
    ensures r == Err("missing --endpoint") <==>
      var st := ScanArgs(if |argv| == 0 then [] else argv[1..], FromEnv(env));
      st.token.Some? && st.endpoint.None?
    ensures r.Ok? ==> 1 <= r.value.interval && IsU64(r.value.interval)
    ensures r.Ok? ==>
      var st := ScanArgs(if |argv| == 0 then [] else argv[1..], FromEnv(env));
      && r.value.token == st.token.value && r.value.endpoint == st.endpoint.value
      && r.value.flag == st.flag.GetOr(DEFAULT_FLAG)
  {
    var st := ScanArgs(if |argv| == 0 then [] else argv[1..], FromEnv(env));
    if st.token.None? then Err("missing --token")
    else if st.endpoint.None? then Err("missing --endpoint")
    else
      var interval := st.interval.GetOr(DEFAULT_INTERVAL);
      Ok(Config(st.token.value, st.endpoint.value, if interval < 1 then 1 else interval,
                st.flag.GetOr(DEFAULT_FLAG)))
  }

  method LoadConfigLoop(argv: seq<string>, env: Env) returns (r: Result<Config, string>)
    ensures r == LoadConfig(argv, env)
  {
    var st := FromEnv(env);
    var args := if |argv| == 0 then [] else argv[1..];
    var i := 0;
    while i < |args|
      invariant 0 <= i <= |args|
      invariant ScanArgs(args[i..], st) == ScanArgs(args, FromEnv(env))
      decreases |args| - i
    {
      var arg := args[i];
      assert args[i..][1..] == args[i + 1..];
      i := i + 1;
      if IsBareOption(arg) {
        if i < |args| {
          assert args[i - 1..][2..] == args[i + 1..];
          st := SetOption(st, arg, args[i]);
          i := i + 1;
        } else {
          assert args[i - 1..] == [arg];
        }
      } else {
        st := SetInline(st, arg);
      }
    }
    assert args[i..] == [];
    if st.token.None? {
      return Err("missing --token");
    }
    if st.endpoint.None? {
      return Err("missing --endpoint");
    }
    var interval := st.interval.GetOr(DEFAULT_INTERVAL);
    if interval < 1 {
      interval := 1;
    }
    r := Ok(Config(st.token.value, st.endpoint.value, interval, st.flag.GetOr(DEFAULT_FLAG)));
  }

  /** Scanning a concatenation is scanning its parts in turn, provided the
      first part does not end on a bare option (which would take the second
      part's first argument as its value). */
  lemma {:induction false} ScanAppend(a: seq<string>, b: seq<string>, st: Settings)
    requires !EndsOnBareOption(a)
    ensures ScanArgs(a + b, st) == ScanArgs(b, ScanArgs(a, st))
    decreases |a|
  {
    if |a| == 0 {
      assert a + b == b;
    } else if IsBareOption(a[0]) {
      assert (a + b)[2..] == a[2..] + b;
      ScanAppend(a[2..], b, SetOption(st, a[0], a[1]));
    } else {
      assert (a + b)[1..] == a[1..] + b;
      ScanAppend(a[1..], b, SetInline(st, a[0]));
    }
  }

  /** The last `--token` wins, in either spelling, over earlier options and
      the environment. */
  lemma {:induction false} LastTokenWins(args: seq<string>, value: string, st: Settings)
    requires !EndsOnBareOption(args)
    ensures ScanArgs(args + ["--token", value], st).token == Some(value)
    ensures ScanArgs(args + ["--token=" + value], st).token == Some(value)
  {
    ScanAppend(args, ["--token", value], st);
    ScanAppend(args, ["--token=" + value], st);
    assert ("--token=" + value)[8..] == value;
    assert !IsBareOption("--token=" + value) by {
      assert ("--token=" + value)[7] == '=';
    }
    assert StartsWith("--token=" + value, "--token=") by {
      assert ("--token=" + value)[..8] == "--token=";
    }
  }

  /** The same holds for `--endpoint`. */
  lemma {:induction false} LastEndpointWins(args: seq<string>, value: string, st: Settings)
    requires !EndsOnBareOption(args)
    ensures ScanArgs(args + ["--endpoint", value], st).endpoint == Some(value)
    ensures ScanArgs(args + ["--endpoint=" + value], st).endpoint == Some(value)
  {
    var arg := "--endpoint=" + value;
    ScanAppend(args, ["--endpoint", value], st);
    ScanAppend(args, [arg], st);
    assert arg[..11] == "--endpoint=" && arg[11..] == value;
    PrefixesDiffer(arg, "--endpoint=", "--token=", 2);
    assert !IsBareOption(arg) by {
      assert arg[10] == '=';
    }
  }

  /** The last `--interval` wins too, in either spelling; its value is
      parsed, and one that does not parse leaves no interval at all. */
  lemma {:induction false} LastIntervalWins(args: seq<string>, value: string, st: Settings)
    requires !EndsOnBareOption(args)
    ensures ScanArgs(args + ["--interval", value], st).interval == ParseU64(value)
    ensures ScanArgs(args + ["--interval=" + value], st).interval == ParseU64(value)
  {
    var arg := "--interval=" + value;
    ScanAppend(args, ["--interval", value], st);
    ScanAppend(args, [arg], st);
    assert arg[..11] == "--interval=" && arg[11..] == value;
    PrefixesDiffer(arg, "--interval=", "--token=", 2);
    PrefixesDiffer(arg, "--interval=", "--endpoint=", 2);
    assert !IsBareOption(arg) by {
      assert arg[10] == '=';
    }
  }

  /** And for `--flag`. */
  lemma {:induction false} LastFlagWins(args: seq<string>, value: string, st: Settings)
    requires !EndsOnBareOption(args)
    ensures ScanArgs(args + ["--flag", value], st).flag == Some(value)
    ensures ScanArgs(args + ["--flag=" + value], st).flag == Some(value)
  {
    var arg := "--flag=" + value;
    ScanAppend(args, ["--flag", value], st);
    ScanAppend(args, [arg], st);
    assert arg[..7] == "--flag=" && arg[7..] == value;
    PrefixesDiffer(arg, "--flag=", "--token=", 2);
    PrefixesDiffer(arg, "--flag=", "--endpoint=", 2);
    PrefixesDiffer(arg, "--flag=", "--interval=", 2);
    assert !IsBareOption(arg) by {
      assert arg[6] == '=';
    }
  }

  /** An interval that does not parse falls back to 5 seconds, and 0 is raised to 1. */
  lemma IntervalDefaults(argv: seq<string>, env: Env)
    requires LoadConfig(argv, env).Ok?
    ensures var st := ScanArgs(if |argv| == 0 then [] else argv[1..], FromEnv(env));
      && (st.interval.None? ==> LoadConfig(argv, env).value.interval == DEFAULT_INTERVAL)
      && (st.interval == Some(0) ==> LoadConfig(argv, env).value.interval == 1)
      && (st.interval.Some? && st.interval.value >= 1 ==> LoadConfig(argv, env).value.interval == st.interval.value)
  {
  }

  /** A bare option with nothing after it changes nothing. */
  lemma {:induction false} TrailingBareOptionIgnored(args: seq<string>, option: string, st: Settings)
    requires !EndsOnBareOption(args) && IsBareOption(option)
    ensures ScanArgs(args + [option], st) == ScanArgs(args, st)
  {
    ScanAppend(args, [option], st);
  }

  /** Token and endpoint given inline, nothing in the environment: the
      interval and the flag take their defaults. */
  lemma {:induction false} InlineTokenAndEndpoint(token: string, endpoint: string)
    ensures LoadConfig(["agent", "--token=" + token, "--endpoint=" + endpoint], Env(None, None, None, None))
      == Ok(Config(token, endpoint, DEFAULT_INTERVAL, DEFAULT_FLAG))
  {
    var t := "--token=" + token;
    var e := "--endpoint=" + endpoint;
    var args := [t, e];
    assert ["agent", t, e][1..] == args;
    assert StartsWith(t, "--token=") && t[8..] == token by {
      assert t[..8] == "--token=";
    }
    assert !IsBareOption(t) by {
      assert |t| >= 8 && t[7] == '=';
    }
    assert !StartsWith(e, "--token=") by {
      assert e[2] == 'e';
    }
    assert StartsWith(e, "--endpoint=") && e[11..] == endpoint by {
      assert e[..11] == "--endpoint=";
    }
    assert !IsBareOption(e) by {
      assert |e| >= 11 && e[10] == '=';
    }
    assert args[1..] == [e] && args[1..][1..] == [];
    var st0 := FromEnv(Env(None, None, None, None));
    var st1 := SetInline(st0, t);
    assert st1.token == Some(token) && st1.endpoint == None;
    var st2 := SetInline(st1, e);
    assert st2 == Settings(Some(token), Some(endpoint), None, None);
    assert ScanArgs(args, st0) == ScanArgs([e], st1) == ScanArgs([], st2);
  }

  // ------------------------------------------------------------ report URL

  /** The report URL: the endpoint without trailing slashes, then "/api/report". */
  function ReportUrl(endpoint: string): (url: string)
    ensures StartsWith(url, TrimEndChar(endpoint, '/'))
    ensures url[|TrimEndChar(endpoint, '/')|..] == "/api/report"
  {
    TrimEndChar(endpoint, '/') + "/api/report"
  }

  /** Trailing slashes on the endpoint make no difference, so the URL never
      holds "//" before "api". */
  lemma {:induction false} ReportUrlIgnoresTrailingSlash(endpoint: string)
    ensures ReportUrl(endpoint + "/") == ReportUrl(endpoint)
    ensures var base := TrimEndChar(endpoint, '/'); base == [] || base[|base| - 1] != '/'
  {
    assert (endpoint + "/")[..|endpoint|] == endpoint;
  }
}
