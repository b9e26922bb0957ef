/** `parse_mount_options`: mount flags and file-system data out of one comma-separated string. */
module MountOptions {
  import opened Strings
  import opened Fields

  /** The MS_* bits; a set of them stands for the flag word, union for bitwise or. */
  datatype MountFlag =
    | RdOnly | NoSuid | NoDev | NoExec | Synchronous | Remount | MandLock | DirSync | NoAtime | NoDirAtime
    | BindMount | Rec | Move | Shared | Slave | Private | Unbindable | StrictAtime | LazyTime

  /** Options that set a flag, and options that are only discarded. */
  const SETTING: map<string, set<MountFlag>> := map[
    "ro" := {RdOnly}, "nosuid" := {NoSuid}, "nodev" := {NoDev}, "noexec" := {NoExec}, "sync" := {Synchronous},
    "remount" := {Remount}, "mand" := {MandLock}, "dirsync" := {DirSync}, "noatime" := {NoAtime},
    "nodiratime" := {NoDirAtime}, "bind" := {BindMount}, "rbind" := {BindMount, Rec}, "move" := {Move}, "rec" := {Rec},
    "shared" := {Shared}, "slave" := {Slave}, "private" := {Private}, "unbindable" := {Unbindable},
    "strictatime" := {StrictAtime}, "lazytime" := {LazyTime}]

  const DISCARDED: set<string> := {
    "rw", "suid", "dev", "exec", "async", "nomand", "atime", "diratime", "noswap", "defaults"}

  const FLAG_MAP: map<string, set<MountFlag>> := (map t | t in DISCARDED :: {}) + SETTING

  const COMMA: set<char> := {','}

  datatype Options = Options(flags: set<MountFlag>, data: string)

  predicate IsFlag(token: string)
  {
    '=' !in token && token in FLAG_MAP
  }

  function JoinData(a: string, b: string): string
  {
    if a == "" then b else if b == "" then a else a + [','] + b
  }

  /** Or-ing the flags and comma-joining the data. */
  function Combine(a: Options, b: Options): Options
  {
    Options(a.flags + b.flags, JoinData(a.data, b.data))
  }

  function One(token: string): Options
  {
    if IsFlag(token) then Options(FLAG_MAP[token], "") else Options({}, token)
  }

  function All(tokens: seq<string>): Options
  {
    if tokens == [] then Options({}, "") else Combine(One(tokens[0]), All(tokens[1..]))
  }

  /** What the string means: its non-empty comma-separated tokens, combined. */
  function Meaning(opts: string): Options
  {
    All(Split(opts, COMMA))
  }

  lemma CombineAssociative(a: Options, b: Options, c: Options)
    ensures Combine(a, Combine(b, c)) == Combine(Combine(a, b), c)
  {
    assert a.data + [','] + (b.data + [','] + c.data) == a.data + [','] + b.data + [','] + c.data;
  }

  lemma CombineUnit(a: Options)
    ensures Combine(Options({}, ""), a) == a && Combine(a, Options({}, "")) == a
  {
  }

  lemma {:induction false} AllConcat(x: seq<string>, y: seq<string>)
    ensures All(x + y) == Combine(All(x), All(y))
  {
    hide Combine, One;
    if x == [] {
      assert x + y == y;
      CombineUnit(All(y));
    } else {
      AllConcat(x[1..], y);
      assert (x + y)[1..] == x[1..] + y;
      CombineAssociative(One(x[0]), All(x[1..]), All(y));
    }
  }

  /** Homomorphism: parsing "a,b" combines the parses of "a" and "b". */
  lemma MeaningOfConcat(a: string, b: string)
    ensures Meaning(a + [','] + b) == Combine(Meaning(a), Meaning(b))
  {
    SplitConcat(a, ',', b, COMMA);
    AllConcat(Split(a, COMMA), Split(b, COMMA));
  }

  /** The tokens that are passed on to the file system. */
  function DataTokens(tokens: seq<string>): seq<string>
  {
    if tokens == [] then [] else (if IsFlag(tokens[0]) then [] else [tokens[0]]) + DataTokens(tokens[1..])
  }

  /** The tokens with a comma between each two. */
  function CommaJoined(tokens: seq<string>): string
  {
    if tokens == [] then "" else if |tokens| == 1 then tokens[0] else tokens[0] + "," + CommaJoined(tokens[1..])
  }

  lemma {:induction false} AllData(tokens: seq<string>)
    requires forall i :: 0 <= i < |tokens| ==> tokens[i] != ""
    ensures All(tokens).data == CommaJoined(DataTokens(tokens))
    ensures All(tokens).data == "" <==> DataTokens(tokens) == []
  {
    hide FLAG_MAP, SETTING, DISCARDED;
    if tokens != [] {
      AllData(tokens[1..]);
      var rest := DataTokens(tokens[1..]);
      if !IsFlag(tokens[0]) {
        assert DataTokens(tokens)[1..] == rest;
      } else {
        assert DataTokens(tokens) == rest;
      }
    }
  }

  /** The data string is every non-empty token that is not a flag, once, in order, with single commas between. */
  lemma DataIsComplete(opts: string)
    ensures Meaning(opts).data == CommaJoined(DataTokens(Split(opts, COMMA)))
  {
    hide All, DataTokens, CommaJoined;
    var tokens := Split(opts, COMMA);
    forall i | 0 <= i < |tokens|
      ensures tokens[i] != ""
    {
      SplitFields(opts, COMMA, i);
    }
    AllData(tokens);
  }

  /** A flag is set exactly when some flag token asks for it. */
  lemma {:induction false} FlagsAreComplete(tokens: seq<string>, f: MountFlag)
    ensures f in All(tokens).flags <==> exists i :: 0 <= i < |tokens| && IsFlag(tokens[i]) && f in FLAG_MAP[tokens[i]]
  {
    hide FLAG_MAP, SETTING, DISCARDED;
    if tokens != [] {
      FlagsAreComplete(tokens[1..], f);
      var rest := tokens[1..];
      forall i | 0 <= i < |tokens| && IsFlag(tokens[i]) && f in FLAG_MAP[tokens[i]]
        ensures f in One(tokens[0]).flags || f in All(rest).flags
      {
        if i > 0 { assert rest[i - 1] == tokens[i]; }
      }
      if i :| 0 <= i < |rest| && IsFlag(rest[i]) && f in FLAG_MAP[rest[i]] {
        assert tokens[i + 1] == rest[i];
      }
    }
  }

  /** The option that sets each flag; `rbind` sets two. */
  predicate SetBy(f: MountFlag, token: string)
  {
    match f
    case RdOnly => token == "ro"
    case NoSuid => token == "nosuid"
    case NoDev => token == "nodev"
    case NoExec => token == "noexec"
    case Synchronous => token == "sync"
    case Remount => token == "remount"
    case MandLock => token == "mand"
    case DirSync => token == "dirsync"
    case NoAtime => token == "noatime"
    case NoDirAtime => token == "nodiratime"
    case BindMount => token == "bind" || token == "rbind"
    case Rec => token == "rec" || token == "rbind"
    case Move => token == "move"
    case Shared => token == "shared"
    case Slave => token == "slave"
    case Private => token == "private"
    case Unbindable => token == "unbindable"
    case StrictAtime => token == "strictatime"
    case LazyTime => token == "lazytime"
  }

  lemma OnlySetBy(f: MountFlag, token: string)
    requires token in SETTING && f in SETTING[token]
    ensures SetBy(f, token)
  {
  }

  lemma SetByItsOption(f: MountFlag, token: string)
    requires SetBy(f, token)
    ensures token in SETTING && f in SETTING[token] && '=' !in token
  {
  }

  /** A flag is set if and only if its own option is among the tokens. */
  lemma FlagsExact(tokens: seq<string>, f: MountFlag)
    ensures f in All(tokens).flags <==> exists i :: 0 <= i < |tokens| && SetBy(f, tokens[i])
  {
    hide SETTING, DISCARDED, All, SetBy;
    FlagsAreComplete(tokens, f);
    if i :| 0 <= i < |tokens| && IsFlag(tokens[i]) && f in FLAG_MAP[tokens[i]] {
      OnlySetBy(f, tokens[i]);
    }
    if i :| 0 <= i < |tokens| && SetBy(f, tokens[i]) {
      SetByItsOption(f, tokens[i]);
    }
  }

  /** The loop of lines 41-64. */
  method ParseMountOptions(opts: string) returns (flags: set<MountFlag>, data: string)
    ensures Options(flags, data) == Meaning(opts)
  {
    hide Split, FLAG_MAP, SETTING, DISCARDED;
    flags, data := {}, "";
    var sv := opts;
    CombineUnit(Meaning(opts));
    while sv != ""
      invariant Combine(Options(flags, data), Meaning(sv)) == Meaning(opts)
      decreases |sv|
    {
      var comma := Find(sv, ',', 0);
      var token := sv[..comma];
      TakeToken(sv, comma, Options(flags, data));
      EmptyIsNoFlag();
      sv := if comma == |sv| then "" else sv[comma + 1..];
      if '=' in token {
        data := if data != "" then data + [','] + token else token;
      } else if token in FLAG_MAP {
        flags := flags + FLAG_MAP[token];
      } else if token != "" {
        data := if data != "" then data + [','] + token else token;
      }
    }
    SplitNothing(COMMA);
    CombineUnit(Options(flags, data));
  }

  lemma EmptyIsNoFlag()
    ensures "" !in FLAG_MAP
  {
  }

  /** Moving the first token from the unread part to the result. */
  lemma TakeToken(sv: string, comma: nat, acc: Options)
    requires comma <= |sv| && (comma < |sv| ==> sv[comma] == ',') && forall i :: 0 <= i < comma ==> sv[i] != ','
    ensures var rest := if comma == |sv| then "" else sv[comma + 1..];
      Combine(acc, Meaning(sv)) ==
      Combine(if comma == 0 then acc else Combine(acc, One(sv[..comma])), Meaning(rest))
  {
    hide Combine, One, Split;
    var token, rest := sv[..comma], if comma == |sv| then "" else sv[comma + 1..];
    SplitAt(sv, COMMA, comma);
    SplitNothing(COMMA);
    AllConcat(NonEmpty(token), Split(rest, COMMA));
    if comma > 0 {
      CombineUnit(One(token));
      assert All([token]) == One(token);
      CombineAssociative(acc, One(token), Meaning(rest));
    } else {
      CombineUnit(Meaning(rest));
    }
  }
}
