/** `(*Wrapper).UnmarshalText`: choosing a wrapper from configuration text.

    The grammar: `""`, `"nop"`, `"std"`, `"zap"` and `"sentry"` name a wrapper
    each; `"zap:<level>"` and `"zap:<level>:<k>=<v>,..."` configure the zap
    wrapper, with the level lower-cased and each pair trimmed and cut at its first
    '='; anything else is an error, and on an error the target is not written. */
module LogUnmarshal {
  import opened Optional
  import opened GoStrings
  import opened LogWrapper

  /** The four errors UnmarshalText returns, with the text each one quotes. */
  datatype ParseError =
    | TooManyColons(input: string)   // malformed input: too many ":"
    | MissingEquals(pair: string)    // malformed input: no "=" in kv pair
    | DuplicateKey(key: string)      // malformed input: key appeared at least twice
    | Unsupported(input: string)     // unsupported log.Wrapper config

  datatype Result<+T> = Ok(value: T) | Err(error: ParseError)

  /** Which constructor the text selects, with its arguments. */
  datatype Config =
    | UseDefault                  // DefaultWrapper
    | UseNop                      // NopWrapper
    | UseStd                      // StdWrapper(log.New(os.Stderr, "", log.LstdFlags))
    | UseZap(args: ZapWrapperArgs)
    | UseSentry                   // ErrorWithSentryWrapper()

  /** One `k=v` item after trimming: either it holds no '=' (and the error will
      quote the trimmed text) or it is cut at its first '=' into key and value. */
  datatype Cut = NoEquals(trimmed: string) | KeyValue(key: string, value: string)

  /** Trims one item and cuts it at its first '='. It has no cut exactly when it
      holds no '='; the key of a cut holds no '=' and the value is the rest. */
  function CutPair(kv: string): (c: Cut)
    ensures c.NoEquals? <==> '=' !in kv
    ensures c.NoEquals? ==> c.trimmed == TrimSpace(kv)
    ensures c.KeyValue? ==> '=' !in c.key && TrimSpace(kv) == c.key + "=" + c.value
  {
    TrimSpaceKeeps(kv, '=');
    var t := TrimSpace(kv);
    match IndexOf(t, '=')
    case None => NoEquals(t)
    case Some(i) =>
      CutAround(t, i);
      KeyValue(t[..i], t[i + 1..])
  }

  /** Text around a position holding '=' is the part before, '=', and the part after. */
  lemma CutAround(t: string, i: nat)
    requires i < |t| && t[i] == '='
    ensures t == t[..i] + "=" + t[i + 1..]
  {
  }

  /** The cut is the only way to read a trimmed item as key, '=', value with an
      '='-free key: so the value keeps every further '='. */
  lemma CutPairUnique(kv: string, key: string, value: string)
    requires '=' !in key && TrimSpace(kv) == key + "=" + value
    ensures CutPair(kv) == KeyValue(key, value)
  {
    var t := TrimSpace(kv);
    IndexOfAt(key, '=', value);
    assert t[..|key|] == key && t[|key| + 1..] == value;
  }

  /** The cuts of the comma-separated items. */
  function Cuts(kvs: seq<string>): seq<Cut> {
    seq(|kvs|, i requires 0 <= i < |kvs| => CutPair(kvs[i]))
  }

  /** The pair-collecting loop as a function: pairs are added to `acc` in order;
      the first item without '=' or with a key already present ends it in error. */
  function Insert(acc: map<string, string>, cuts: seq<Cut>): (r: Result<map<string, string>>)
    ensures r.Err? ==> r.error.MissingEquals? || r.error.DuplicateKey?
    ensures r.Ok? ==> forall k :: k in acc ==> k in r.value && r.value[k] == acc[k]
    decreases |cuts|
  {
    if cuts == [] then Ok(acc)
    else
      match cuts[0]
      case NoEquals(t) => Err(MissingEquals(t))
      case KeyValue(key, value) =>
        if key in acc then Err(DuplicateKey(key)) else Insert(acc[key := value], cuts[1..])
  }

  /** The pairs of the comma-separated items `kvs`, starting from no pairs. */
  function ParsePairs(kvs: seq<string>): (r: Result<map<string, string>>)
    ensures r.Ok? ==> |r.value| == |kvs|
  {
    var r := Insert(map[], Cuts(kvs));
    if r.Ok? then InsertContents(map[], Cuts(kvs)); r else r
  }

  /** Every item is cut, no two share a key, and none of their keys is in `acc`. */
  ghost predicate Acceptable(acc: map<string, string>, cuts: seq<Cut>) {
    && (forall i :: 0 <= i < |cuts| ==> cuts[i].KeyValue?)
    && (forall i, j :: 0 <= i < j < |cuts| ==> cuts[i].key != cuts[j].key)
    && (forall i :: 0 <= i < |cuts| ==> cuts[i].key !in acc)
  }

  /** Item `j` is the first one the loop rejects, with error `e`: the items before
      it are acceptable, and it either holds no '=' (and `e` quotes the trimmed item)
      or its key is one seen before (and `e` names that key). */
  ghost predicate FirstRejected(acc: map<string, string>, cuts: seq<Cut>, j: nat, e: ParseError) {
    && j < |cuts|
    && Acceptable(acc, cuts[..j])
    && match cuts[j]
       case NoEquals(t) => e == MissingEquals(t)
       case KeyValue(key, _) =>
         e == DuplicateKey(key) && (key in acc || exists i :: 0 <= i < j && cuts[i].key == key)
  }

  lemma AcceptableStep(acc: map<string, string>, cuts: seq<Cut>)
    requires cuts != [] && cuts[0].KeyValue?
    ensures Acceptable(acc, cuts) <==>
              cuts[0].key !in acc && Acceptable(acc[cuts[0].key := cuts[0].value], cuts[1..])
  {
    var rest := cuts[1..];
    assert forall i :: 0 <= i < |rest| ==> rest[i] == cuts[i + 1];
    if cuts[0].key !in acc && Acceptable(acc[cuts[0].key := cuts[0].value], rest) {
      forall i, j | 0 <= i < j < |cuts| ensures cuts[i].key != cuts[j].key {
        assert cuts[j] == rest[j - 1];
        if i > 0 { assert cuts[i] == rest[i - 1]; }
      }
    }
  }

  /** The loop succeeds exactly when the items are acceptable. */
  lemma {:induction false} InsertOkIff(acc: map<string, string>, cuts: seq<Cut>)
    ensures Insert(acc, cuts).Ok? <==> Acceptable(acc, cuts)
    decreases |cuts|
  {
    if cuts != [] {
      match cuts[0]
      case NoEquals(_) =>
      case KeyValue(key, value) =>
        AcceptableStep(acc, cuts);
        if key !in acc {
          InsertOkIff(acc[key := value], cuts[1..]);
        }
    }
  }

  /** On success the result holds `acc` and exactly one new binding per item: each
      item's key bound to its value. */
  lemma {:induction false} InsertContents(acc: map<string, string>, cuts: seq<Cut>)
    requires Insert(acc, cuts).Ok?
    ensures var m := Insert(acc, cuts).value;
      && (forall i :: 0 <= i < |cuts| ==> cuts[i].KeyValue? && cuts[i].key in m && m[cuts[i].key] == cuts[i].value)
      && (forall k :: k in acc ==> k in m && m[k] == acc[k])
      && (forall k :: k in m ==> k in acc || exists i :: 0 <= i < |cuts| && cuts[i].key == k)
      && |m| == |acc| + |cuts|
    decreases |cuts|
  {
    if cuts != [] {
      assert cuts[0].KeyValue? && cuts[0].key !in acc;
      var key, value, rest := cuts[0].key, cuts[0].value, cuts[1..];
      var acc' := acc[key := value];
      assert Insert(acc, cuts) == Insert(acc', rest);
      InsertContents(acc', rest);
      var m := Insert(acc, cuts).value;
      assert forall i :: 0 <= i < |rest| ==> rest[i] == cuts[i + 1];
      forall i | 0 <= i < |cuts|
        ensures cuts[i].KeyValue? && cuts[i].key in m && m[cuts[i].key] == cuts[i].value
      {
        if i == 0 {
          assert key in acc' && acc'[key] == value;
        }
      }
      forall k | k in acc ensures k in m && m[k] == acc[k] {
        assert k in acc' && acc'[k] == acc[k];
      }
      assert |acc'| == |acc| + 1;
      forall k | k in m ensures k in acc || exists i :: 0 <= i < |cuts| && cuts[i].key == k {
        if k !in acc && k != key {
          var i :| 0 <= i < |rest| && rest[i].key == k;
          assert cuts[i + 1].key == k;
        }
      }
    }
  }

  /** On failure the error comes from the first item the loop rejects. */
  lemma {:induction false} InsertError(acc: map<string, string>, cuts: seq<Cut>)
    requires Insert(acc, cuts).Err?
    ensures exists j: nat :: FirstRejected(acc, cuts, j, Insert(acc, cuts).error)
    decreases |cuts|
  {
    var e := Insert(acc, cuts).error;
    assert cuts[..0] == [];
    match cuts[0]
    case NoEquals(_) =>
      assert FirstRejected(acc, cuts, 0, e);
    case KeyValue(key, value) =>
      if key in acc {
        assert FirstRejected(acc, cuts, 0, e);
      } else {
        var acc', rest := acc[key := value], cuts[1..];
        InsertError(acc', rest);
        var j: nat :| FirstRejected(acc', rest, j, e);
        assert rest[..j] == cuts[..j + 1][1..];
        AcceptableStep(acc, cuts[..j + 1]);
        assert rest[j] == cuts[j + 1];
        if cuts[j + 1].KeyValue? {
          var k := cuts[j + 1].key;
          if k !in acc && k != key {
            var i :| 0 <= i < j && rest[i].key == k;
            assert cuts[i + 1].key == k;
          }
        }
        assert FirstRejected(acc, cuts, j + 1, e);
      }
  }

  /** A text starting with "zap:" splits into "zap" and the pieces of the rest. */
  lemma ZapPrefixSplit(s: string)
    requires HasPrefix(s, "zap:")
    ensures Split(s, ':') == ["zap"] + Split(s[4..], ':')
  {
    assert s == "zap" + [':'] + s[4..];
    SplitAtFirst("zap", ':', s[4..]);
  }

  /** The configuration a text selects, or the error UnmarshalText returns for it. */
  function Parse(s: string): (r: Result<Config>)
    ensures HasPrefix(s, "zap:") && r.Ok? ==> r.value.UseZap?
    ensures !HasPrefix(s, "zap:") ==> (r.Ok? <==> s in Literals)
  {
    if HasPrefix(s, "zap:") then
      ZapPrefixSplit(s);
      var split := Split(s, ':');
      if |split| > 3 then Err(TooManyColons(s))
      else
        var pairs := if |split| > 2 then ParsePairs(Split(split[2], ',')) else Ok(map[]);
        match pairs
        case Err(e) => Err(e)
        case Ok(p) => Ok(UseZap(ZapWrapperArgs(ToLower(split[1]), p)))
    else if s == "" then Ok(UseDefault)
    else if s == "nop" then Ok(UseNop)
    else if s == "std" then Ok(UseStd)
    else if s == "zap" then Ok(UseZap(ZapWrapperArgs("", map[])))
    else if s == "sentry" then Ok(UseSentry)
    else Err(Unsupported(s))
  }

  /** The literal names outside the "zap:" form. */
  const Literals: set<string> := {"", "nop", "std", "zap", "sentry"}

  /** A "zap:" text is rejected for too many ':' exactly when it holds more than two,
      i.e. when it splits into more than three pieces. */
  lemma ParseTooManyColons(s: string)
    requires HasPrefix(s, "zap:")
    ensures Parse(s) == Err(TooManyColons(s)) <==> Count(s, ':') > 2
    ensures Parse(s).Err? && Parse(s).error.TooManyColons? <==> Count(s, ':') > 2
  {
    SplitLength(s, ':');
  }

  /** The unsupported-value error is returned exactly for the texts that neither
      start with "zap:" nor are one of the literal names, and it quotes the text. */
  lemma ParseUnsupported(s: string)
    ensures Parse(s).Err? && Parse(s).error.Unsupported? <==> !HasPrefix(s, "zap:") && s !in Literals
    ensures Parse(s).Err? && Parse(s).error.Unsupported? ==> Parse(s).error.input == s
  {
    if HasPrefix(s, "zap:") {
      ZapPrefixSplit(s);
    }
  }

  /** The literal table. */
  lemma ParseLiterals(s: string)
    ensures s == "" ==> Parse(s) == Ok(UseDefault)
    ensures s == "nop" ==> Parse(s) == Ok(UseNop)
    ensures s == "std" ==> Parse(s) == Ok(UseStd)
    ensures s == "zap" ==> Parse(s) == Ok(UseZap(ZapWrapperArgs("", map[])))
    ensures s == "sentry" ==> Parse(s) == Ok(UseSentry)
  {
    if s in Literals {
      assert |s| < 4 || s[0] != 'z';
      assert !HasPrefix(s, "zap:");
    }
  }

  /** "zap:<level>" with no further ':' selects zap at the lower-cased level with
      no pairs; in particular "zap:" selects the empty level. */
  lemma ParseLevelOnly(level: string)
    requires ':' !in level
    ensures Parse("zap:" + level) == Ok(UseZap(ZapWrapperArgs(ToLower(level), map[])))
  {
    var s := "zap:" + level;
    assert HasPrefix(s, "zap:") && s[4..] == level;
    ZapPrefixSplit(s);
    SplitJoin([level], ':');
  }

  /** "zap:<level>:<list>" selects zap at the lower-cased level with the pairs of the
      comma-separated items of `list`, or fails as the pair loop does. */
  lemma ParseLevelAndList(level: string, list: string)
    requires ':' !in level && ':' !in list
    ensures Parse("zap:" + level + ":" + list) ==
      match ParsePairs(Split(list, ','))
      case Ok(m) => Ok(UseZap(ZapWrapperArgs(ToLower(level), m)))
      case Err(e) => Err(e)
  {
    var s := "zap:" + level + ":" + list;
    assert HasPrefix(s, "zap:") && s[4..] == level + [':'] + list;
    ZapPrefixSplit(s);
    SplitAtFirst(level, ':', list);
    SplitJoin([list], ':');
  }

  /** "zap:<level>:" has an empty pair list, which is one empty item without '='. */
  lemma ParseEmptyList(level: string)
    requires ':' !in level
    ensures Parse("zap:" + level + ":") == Err(MissingEquals(""))
  {
    ParseLevelAndList(level, "");
    assert "zap:" + level + ":" + "" == "zap:" + level + ":";
    SplitJoin([""], ',');
    assert Cuts([""]) == [CutPair("")];
  }

  /** A list ending in ',' has an empty last item, which has no '='. */
  lemma TrailingCommaItem(list: string)
    ensures var cuts := Cuts(Split(list + [','], ','));
      |cuts| >= 1 && cuts[|cuts| - 1] == NoEquals("")
  {
    TrailingSeparator(list, ',');
    var kvs := Split(list + [','], ',');
    assert kvs[|kvs| - 1] == "";
  }

  /** A trailing comma makes a last, empty item, so the text is rejected. */
  lemma ParseTrailingComma(level: string, list: string)
    requires ':' !in level && ':' !in list
    ensures Parse("zap:" + level + ":" + list + ",").Err?
  {
    assert ':' !in list + ",";
    TrailingListRejected(list);
    ListRejected(level, list + ",");
    assert "zap:" + level + ":" + list + "," == "zap:" + level + ":" + (list + ",");
  }

  /** A list the pair loop rejects makes the whole text rejected. */
  lemma ListRejected(level: string, list: string)
    requires ':' !in level && ':' !in list
    requires ParsePairs(Split(list, ',')).Err?
    ensures Parse("zap:" + level + ":" + list).Err?
  {
    ParseLevelAndList(level, list);
  }

  lemma TrailingListRejected(list: string)
    ensures ParsePairs(Split(list + [','], ',')).Err?
  {
    var cuts := Cuts(Split(list + [','], ','));
    TrailingCommaItem(list);
    InsertOkIff(map[], cuts);
  }

  /** "zap:<level>:<list>" is accepted exactly when every item holds '=' and no
      two items have the same key. */
  lemma ParseZapAccepts(level: string, list: string)
    requires ':' !in level && ':' !in list
    ensures Parse("zap:" + level + ":" + list).Ok? <==> Acceptable(map[], Cuts(Split(list, ',')))
  {
    ParseLevelAndList(level, list);
    InsertOkIff(map[], Cuts(Split(list, ',')));
  }

  /** When "zap:<level>:<list>" is accepted, the pairs are exactly the items' keys,
      each bound to its own value, at the lower-cased level. */
  lemma ParseZapContents(level: string, list: string)
    requires ':' !in level && ':' !in list
    requires Parse("zap:" + level + ":" + list).Ok?
    ensures var r, cuts := Parse("zap:" + level + ":" + list), Cuts(Split(list, ','));
      && r.value.UseZap? && r.value.args.level == ToLower(level)
      && var m := r.value.args.kvPairs;
      && |m| == |cuts|
      && (forall i :: 0 <= i < |cuts| ==> cuts[i].KeyValue? && cuts[i].key in m && m[cuts[i].key] == cuts[i].value)
      && (forall k :: k in m ==> exists i :: 0 <= i < |cuts| && cuts[i].KeyValue? && cuts[i].key == k)
  {
    var cuts := Cuts(Split(list, ','));
    ParseLevelAndList(level, list);
    InsertContents(map[], cuts);
  }

  /** When "zap:<level>:<list>" is rejected, the error is the first rejected item's. */
  lemma ParseZapRejects(level: string, list: string)
    requires ':' !in level && ':' !in list
    requires Parse("zap:" + level + ":" + list).Err?
    ensures exists j: nat ::
      FirstRejected(map[], Cuts(Split(list, ',')), j, Parse("zap:" + level + ":" + list).error)
  {
    ParseLevelAndList(level, list);
    InsertError(map[], Cuts(Split(list, ',')));
  }

  /** `w` is a wrapper the Go code can build for `cfg` (the zap pairs may be
      flattened in any order). */
  ghost predicate Builds(cfg: Config, w: Wrapper)
    ensures Builds(cfg, w) ==> !w.Nil?
  {
    match cfg
    case UseDefault => w == DefaultWrapper
    case UseNop => w == Nop
    case UseStd => w == StdWrapper(Some(StderrLogger))
    case UseZap(args) => IsZapWrapperOf(args, w)
    case UseSentry => w == ErrorWithSentryWrapper()
  }

  /** What logging through a wrapper built for a zap configuration does: nothing at
      the "nop" level; otherwise one record at the level's severity carrying every
      configured pair, each exactly once. */
  lemma ZapConfigLogs(args: ZapWrapperArgs, w: Wrapper, ctx: Context, msg: string)
    requires Builds(UseZap(args), w)
    ensures args.level == NopLevel ==> Log(w, ctx, msg) == []
    ensures args.level != NopLevel ==>
      && Log(w, ctx, msg) == [Emitted(SeverityOf(args.level), msg, w.kv)]
      && |w.kv| == 2 * |args.kvPairs|
      && Unflatten(w.kv) == args.kvPairs
  {
    if args.level != NopLevel {
      FlatteningLength(w.kv, args.kvPairs);
      FlatteningReadsBack(w.kv, args.kvPairs);
    }
  }

  // The examples below take each configuration text as a parameter fixed by a
  // `requires`, rather than as a literal in the `ensures`: on a literal argument
  // the verifier would unfold `Parse` and the string functions under it without
  // bound, whereas here each step goes through the general lemmas above.

  /** "zap:error": zap at the error level, with no pairs. */
  lemma ExampleZapError(text: string, level: string)
    requires level == "error" && text == "zap:" + level
    ensures Parse(text) == Ok(UseZap(ZapWrapperArgs(ErrorLevel, map[])))
  {
    ToLowerUnchanged(level);
    ParseLevelOnly(level);
  }

  /** Upper-case levels are lower-cased: "zap:NOP" selects the silent wrapper. */
  lemma ExampleZapUpperNop(text: string, level: string, w: Wrapper, ctx: Context, msg: string)
    requires level == "NOP" && text == "zap:" + level
    requires Parse(text).Ok? && Builds(Parse(text).value, w)
    ensures w == Nop && Log(w, ctx, msg) == []
  {
    LowerNop(level);
    ParseLevelOnly(level);
  }

  lemma LowerNop(level: string)
    requires level == "NOP"
    ensures ToLower(level) == NopLevel
  {
    var r := ToLower(level);
    assert r[0] == 'n' && r[1] == 'o' && r[2] == 'p';
  }

  /** Cutting an item that has no white space at either end. */
  lemma CutUntrimmed(kv: string, key: string, value: string)
    requires |kv| >= 1 && !IsSpace(kv[0]) && !IsSpace(kv[|kv| - 1])
    requires '=' !in key && kv == key + "=" + value
    ensures CutPair(kv) == KeyValue(key, value)
  {
    assert TrimLeft(kv) == kv;
    assert TrimRight(kv) == kv;
    CutPairUnique(kv, key, value);
  }

  /** "zap:info:key1=value1": zap at the info level with one pair. */
  lemma ExampleZapInfoPair(text: string, level: string, list: string)
    requires level == "info" && list == "key1=value1" && text == "zap:" + level + ":" + list
    ensures Parse(text) == Ok(UseZap(ZapWrapperArgs(InfoLevel, map["key1" := "value1"])))
  {
    assert ':' !in level && ':' !in list;
    ToLowerUnchanged(level);
    PairKey1(list);
    ParseLevelAndList(level, list);
  }

  lemma PairKey1(list: string)
    requires list == "key1=value1"
    ensures ParsePairs(Split(list, ',')) == Ok(map["key1" := "value1"])
  {
    assert ',' !in list && list == "key1" + "=" + "value1";
    OnePair(list, "key1", "value1");
  }

  lemma OnePair(list: string, key: string, value: string)
    requires |list| >= 1 && !IsSpace(list[0]) && !IsSpace(list[|list| - 1])
    requires '=' !in key && ',' !in list && list == key + "=" + value
    ensures ParsePairs(Split(list, ',')) == Ok(map[key := value])
  {
    assert Join([list], ',') == list;
    SplitJoin([list], ',');
    CutUntrimmed(list, key, value);
    assert Cuts([list]) == [KeyValue(key, value)];
    assert Insert(map[], [KeyValue(key, value)]) == Insert(map[key := value], []);
  }

  lemma TwoItems(list: string, first: string, second: string)
    requires ',' !in first && ',' !in second && list == first + "," + second
    ensures Cuts(Split(list, ',')) == [CutPair(first), CutPair(second)]
  {
    assert Join([first, second], ',') == first + [','] + Join([second], ',');
    SplitJoin([first, second], ',');
  }

  /** A key given twice is rejected with that key. */
  lemma ExampleDuplicateKey(text: string, first: string, second: string)
    requires first == "k=a" && second == "k=b" && text == "zap:info:" + first + "," + second
    ensures Parse(text) == Err(DuplicateKey("k"))
  {
    var list := first + "," + second;
    assert ':' !in first && ':' !in second;
    assert ':' !in list;
    assert text == "zap:" + "info" + ":" + list;
    ParseLevelAndList("info", list);
    RepeatedKey(first, second);
  }

  lemma RepeatedKey(first: string, second: string)
    requires first == "k=a" && second == "k=b"
    ensures ParsePairs(Split(first + "," + second, ',')) == Err(DuplicateKey("k"))
  {
    assert first == "k" + "=" + "a" && second == "k" + "=" + "b";
    assert ',' !in first && ',' !in second;
    CutUntrimmed(first, "k", "a");
    CutUntrimmed(second, "k", "b");
    TwoItems(first + "," + second, first, second);
    InsertRepeated("k", "a", "b");
  }

  /** The second of two items with the same key is rejected. */
  lemma InsertRepeated(k: string, a: string, b: string)
    ensures Insert(map[], [KeyValue(k, a), KeyValue(k, b)]) == Err(DuplicateKey(k))
  {
    var cuts := [KeyValue(k, a), KeyValue(k, b)];
    assert Insert(map[], cuts) == Insert(map[k := a], cuts[1..]);
  }

  lemma OneBareItem(item: string)
    requires item == " badpair "
    ensures ParsePairs(Split(item, ',')) == Err(MissingEquals("badpair"))
  {
    assert ',' !in item && '=' !in item;
    assert Join([item], ',') == item;
    SplitJoin([item], ',');
    TrimOnce(item);
    assert item[1..|item| - 1] == "badpair";
    assert Cuts([item]) == [NoEquals("badpair")];
  }

  /** Trimming an item padded by exactly one white-space character at each end. */
  lemma TrimOnce(s: string)
    requires |s| >= 3 && IsSpace(s[0]) && IsSpace(s[|s| - 1]) && !IsSpace(s[1]) && !IsSpace(s[|s| - 2])
    ensures TrimSpace(s) == s[1..|s| - 1]
  {
    assert TrimLeft(s[1..]) == s[1..];
    assert TrimLeft(s) == s[1..];
    assert s[1..][..|s| - 2] == s[1..|s| - 1];
    assert TrimRight(s[1..|s| - 1]) == s[1..|s| - 1];
  }

  lemma ExampleMissingEquals(text: string, item: string)
    requires item == " badpair " && text == "zap:info:" + item
    ensures Parse(text) == Err(MissingEquals("badpair"))
  {
    assert ':' !in item;
    assert text == "zap:" + "info" + ":" + item;
    ParseLevelAndList("info", item);
    OneBareItem(item);
  }

  /** A third ':' is one too many, and a text that is neither a name nor a
      "zap:" form is unsupported. */
  lemma ExampleRejected(text: string, other: string)
    requires text == "zap:a:b:c" && other == "bogus"
    ensures Parse(text) == Err(TooManyColons(text))
    ensures Parse(other) == Err(Unsupported(other))
  {
    assert HasPrefix(text, "zap:");
    assert Join(["zap", "a", "b", "c"], ':') == text;
    SplitJoin(["zap", "a", "b", "c"], ':');
    assert !HasPrefix(other, "zap:");
  }

  /** The loop over the comma-separated items of `zap:<level>:<pairs>`: trims each
      item, cuts it at its first '=', and inserts the pair into the map, returning
      at the first item without '=' or with a key already inserted. */
  method CollectPairs(kvs: seq<string>) returns (r: Result<map<string, string>>)
    ensures r == ParsePairs(kvs)
  {
    var pairs: map<string, string> := map[];
    var i := 0;
    while i < |kvs|
      invariant 0 <= i <= |kvs|
      invariant Insert(pairs, Cuts(kvs)[i..]) == ParsePairs(kvs)
    {
      var kv := TrimSpace(kvs[i]);
      var index := IndexOf(kv, '=');
      if index.None? {
        return Err(MissingEquals(kv));
      }
      var key := kv[..index.value];
      var val := kv[index.value + 1..];
      if key in pairs {
        return Err(DuplicateKey(key));
      }
      pairs := pairs[key := val];
      i := i + 1;
    }
    return Ok(pairs);
  }

  /** A `*Wrapper`: the variable UnmarshalText writes through. */
  class WrapperVar {
    var value: Wrapper

    constructor (w: Wrapper)
      ensures value == w
    {
      value := w;
    }

    /** `(*Wrapper).UnmarshalText`. On an error the variable keeps its old value;
        otherwise it holds a wrapper built for the configuration the text selects. */
    method UnmarshalText(text: string) returns (err: Option<ParseError>)
      modifies this
      ensures Parse(text).Err? ==> err == Some(Parse(text).error) && value == old(value)
      ensures Parse(text).Ok? ==> err == None && Builds(Parse(text).value, value)
    {
      var s := text;
      if HasPrefix(s, "zap:") {
        ZapPrefixSplit(s);
        var split := Split(s, ':');
        if |split| > 3 {
          return Some(TooManyColons(s));
        }
        var pairs: map<string, string> := map[];
        if |split| > 2 {
          var r := CollectPairs(Split(split[2], ','));
          if r.Err? {
            return Some(r.error);
          }
          pairs := r.value;
        }
        value := ZapWrapper(ZapWrapperArgs(ToLower(split[1]), pairs));
        return None;
      }
      if s == "" {
        value := DefaultWrapper;
      } else if s == "nop" {
        value := Nop;
      } else if s == "std" {
        value := StdWrapper(Some(StderrLogger));
      } else if s == "zap" {
        value := ZapWrapper(ZapWrapperArgs("", map[]));
      } else if s == "sentry" {
        value := ErrorWithSentryWrapper();
      } else {
        return Some(Unsupported(text));
      }
      return None;
    }
  }
}
