/**
  The method-channel handler of the Android activity: a decision table from a
  method name and a loosely typed argument to exactly one response. It picks
  the argument apart with safe casts, answers `INVALID_ARGUMENT` before calling
  anything when a required field is missing or empty, applies defaults to the
  missing flags, keeps only the strings of a tracker list, and otherwise calls
  the wrapper, turning an exception into `ERROR`. A throwable that is not an
  `Exception` passes every `catch (e: Exception)` and leaves the handler with
  no response sent.

  The wrapper is the `wrapper` parameter: any function from a call to a
  returned value, a thrown exception or a thrown non-exception.
 */
module Dispatch {
  import opened Wrappers
  import Settings

  /** A channel argument as the handler sees it; `Other` is any type it never casts to. */
  datatype Value =
    | Str(s: string)
    | Dict(entries: map<string, Value>)
    | List(items: seq<Value>)
    | Bool(b: bool)
    | Null
    | Other

  /** `args[key]` on a map: `null` for a missing key. */
  function Get(m: map<string, Value>, key: string): Value
  {
    if key in m then m[key] else Null
  }

  /** `v as? String` */
  function AsString(v: Value): Option<string>
  {
    if v.Str? then Some(v.s) else None
  }

  /** `v as? Boolean` */
  function AsBool(v: Value): Option<bool>
  {
    if v.Bool? then Some(v.b) else None
  }

  /** `o ?: d` */
  function OrElse(o: Option<bool>, d: bool): bool
  {
    if o.Some? then o.value else d
  }

  predicate IsNullOrEmpty(o: Option<string>)
  {
    o.None? || o.value == []
  }

  /** `filterIsInstance<String>()`: the strings of the list, in order. */
  function StringsOf(xs: seq<Value>): (r: seq<string>)
    ensures |r| <= |xs|
    ensures forall i :: 0 <= i < |r| ==> Str(r[i]) in xs
    decreases |xs|
  {
    if xs == [] then [] else Kept(xs[0]) + StringsOf(xs[1..])
  }

  /** What the filter keeps of one element. */
  function Kept(v: Value): seq<string>
  {
    if v.Str? then [v.s] else []
  }

  /** The calls the handler makes on the wrapper, with the arguments it passes. */
  datatype Call =
    | RemoveTorrentByName(name: string)
    | GetTorrentSavePathByName(name: string)
    | AddTorrent(filePath: string, savePath: string, seedMode: bool, announce: bool,
                 enableDht: bool, enableLsd: bool, enableUtp: bool, enableTrackers: bool,
                 enablePeerExchange: bool)
    | GetTorrentStats
    | GetAllTorrents
    | CreateTorrentInAppDir(filePath: string, trackers: Option<seq<string>>)
    | CreateTorrent(filePath: string, outputPath: string, trackers: Option<seq<string>>)

  /**
    What a wrapper call does: return a value, throw an `Exception` with a
    (possibly null) message, or throw a `Throwable` that is no `Exception`
    (an `Error` such as `UnsatisfiedLinkError` for a missing native body).
   */
  datatype Outcome = Returned(value: Value) | Threw(message: Option<string>) | Escaped

  /** `result.success(v)`, `result.error(code, message, null)` or `result.notImplemented()`. */
  datatype Response = Success(value: Value) | Error(code: string, message: Option<string>) | NotImplemented

  /** What the handler decides before, or instead of, calling the wrapper. */
  datatype Step = Reply(response: Response) | Invoke(call: Call)

  function InvalidArgument(message: string): Response
  {
    Error("INVALID_ARGUMENT", Some(message))
  }

  /** The torrent name of `removeTorrentByName` and `getTorrentSavePathByName`: a bare string or the map's `torrentName`. */
  function TorrentNameArg(args: Value): Option<string>
  {
    match args
    case Str(s) => Some(s)
    case Dict(m) => AsString(Get(m, "torrentName"))
    case _ => None
  }

  /** `args["trackers"] as? List<*>`, then `filterIsInstance<String>()`. */
  function TrackersArg(m: map<string, Value>): Option<seq<string>>
  {
    match Get(m, "trackers")
    case List(xs) => Some(StringsOf(xs))
    case _ => None
  }

  /** The `when (call.method)` table, up to the wrapper call. */
  function Plan(name: string, args: Value): (r: Step)
    ensures r.Invoke? ==> name in KnownMethods
    ensures r.Reply? ==> (r.response.NotImplemented? <==> name !in KnownMethods)
    ensures r.Reply? ==> r.response.Error? || r.response.NotImplemented?
    ensures r.Reply? && r.response.Error? ==> r.response.code == "INVALID_ARGUMENT" && r.response.message.Some?
    ensures name == "getTorrentStats" || name == "getAllTorrents" ==> r.Invoke?
  {
    match name
    case "removeTorrentByName" =>
      var torrent := TorrentNameArg(args);
      if IsNullOrEmpty(torrent) then Reply(InvalidArgument("torrentName is required"))
      else Invoke(RemoveTorrentByName(torrent.value))
    case "getTorrentSavePathByName" =>
      var torrent := TorrentNameArg(args);
      if IsNullOrEmpty(torrent) then Reply(InvalidArgument("torrentName is required"))
      else Invoke(GetTorrentSavePathByName(torrent.value))
    case "addTorrent" =>
      if !args.Dict? then Reply(InvalidArgument("Expected map arguments"))
      else
        var m := args.entries;
        var filePath := AsString(Get(m, "filePath"));
        var savePath := AsString(Get(m, "savePath"));
        if IsNullOrEmpty(filePath) || IsNullOrEmpty(savePath) then
          Reply(InvalidArgument("filePath or savePath missing"))
        else
          Invoke(AddTorrent(
            filePath.value,
            savePath.value,
            OrElse(AsBool(Get(m, "seedMode")), false),
            OrElse(AsBool(Get(m, "announce")), false),
            OrElse(AsBool(Get(m, "enableDHT")), true),
            OrElse(AsBool(Get(m, "enableLSD")), true),
            OrElse(AsBool(Get(m, "enableUTP")), true),
            OrElse(AsBool(Get(m, "enableTrackers")), false),
            OrElse(AsBool(Get(m, "enablePeerExchange")), true)))
    case "getTorrentStats" => Invoke(GetTorrentStats)
    case "getAllTorrents" => Invoke(GetAllTorrents)
    case "createTorrentInAppDir" =>
      if !args.Dict? then Reply(InvalidArgument("Expected map arguments"))
      else
        var m := args.entries;
        var filePath := AsString(Get(m, "filePath"));
        if IsNullOrEmpty(filePath) then Reply(InvalidArgument("filePath is required"))
        else Invoke(CreateTorrentInAppDir(filePath.value, TrackersArg(m)))
    case "createTorrent" =>
      if !args.Dict? then Reply(InvalidArgument("Expected map arguments"))
      else
        var m := args.entries;
        var filePath := AsString(Get(m, "filePath"));
        var outputPath := AsString(Get(m, "outputPath"));
        if IsNullOrEmpty(filePath) || IsNullOrEmpty(outputPath) then
          Reply(InvalidArgument("filePath or outputPath is required"))
        else Invoke(CreateTorrent(filePath.value, outputPath.value, TrackersArg(m)))
    case _ => Reply(NotImplemented)
  }

  /**
    The whole handler: the table, then the wrapper call inside its `try`/`catch`;
    `None` when a non-exception escapes and no response is sent.
   */
  function Handle(name: string, args: Value, wrapper: Call -> Outcome): (r: Option<Response>)
    ensures r.None? <==> Plan(name, args).Invoke? && wrapper(Plan(name, args).call).Escaped?
    ensures r.Some? && r.value.Error? ==> r.value.code == "INVALID_ARGUMENT" || r.value.code == "ERROR"
    ensures r.Some? && r.value.Success? ==> Plan(name, args).Invoke?
  {
    match Plan(name, args)
    case Reply(response) => Some(response)
    case Invoke(c) =>
      match wrapper(c)
      case Returned(v) => Some(Response.Success(v))
      case Threw(message) => Some(Error("ERROR", message))
      case Escaped => None
  }

  const KnownMethods: set<string> :=
    {"removeTorrentByName", "getTorrentSavePathByName", "addTorrent", "getTorrentStats",
     "getAllTorrents", "createTorrentInAppDir", "createTorrent"}

  /** A map entry that is a non-empty string. */
  predicate HasText(m: map<string, Value>, key: string)
  {
    key in m && m[key].Str? && m[key].s != []
  }

  /**
    The two by-name methods call the wrapper exactly when the argument is a
    non-empty string or a map whose `torrentName` is one, and pass that name;
    every other argument is answered `INVALID_ARGUMENT` without a call.
   */
  lemma ByNameArgument(name: string, args: Value)
    requires name == "removeTorrentByName" || name == "getTorrentSavePathByName"
    ensures Plan(name, args).Invoke? <==>
              (args.Str? && args.s != []) || (args.Dict? && HasText(args.entries, "torrentName"))
    ensures Plan(name, args).Invoke? ==>
              Plan(name, args).call ==
                var torrent := if args.Str? then args.s else args.entries["torrentName"].s;
                if name == "removeTorrentByName" then RemoveTorrentByName(torrent) else GetTorrentSavePathByName(torrent)
    ensures Plan(name, args).Reply? ==>
              Plan(name, args).response == Error("INVALID_ARGUMENT", Some("torrentName is required"))
  {
  }

  /** The three map-taking methods answer any other argument with "Expected map arguments", whatever it holds. */
  lemma MapMethodsNeedMap(name: string, args: Value)
    requires name == "addTorrent" || name == "createTorrentInAppDir" || name == "createTorrent"
    requires !args.Dict?
    ensures Plan(name, args) == Reply(Error("INVALID_ARGUMENT", Some("Expected map arguments")))
  {
  }

  /**
    Required fields: `addTorrent` needs `filePath` and `savePath`,
    `createTorrent` needs `filePath` and `outputPath`, `createTorrentInAppDir`
    needs `filePath`, each a non-empty string; otherwise the answer is
    `INVALID_ARGUMENT` and nothing is called.
   */
  lemma RequiredFields(m: map<string, Value>)
    ensures Plan("addTorrent", Dict(m)).Invoke? <==> HasText(m, "filePath") && HasText(m, "savePath")
    ensures !Plan("addTorrent", Dict(m)).Invoke? ==>
              Plan("addTorrent", Dict(m)) == Reply(InvalidArgument("filePath or savePath missing"))
    ensures Plan("createTorrent", Dict(m)).Invoke? <==> HasText(m, "filePath") && HasText(m, "outputPath")
    ensures !Plan("createTorrent", Dict(m)).Invoke? ==>
              Plan("createTorrent", Dict(m)) == Reply(InvalidArgument("filePath or outputPath is required"))
    ensures Plan("createTorrentInAppDir", Dict(m)).Invoke? <==> HasText(m, "filePath")
    ensures !Plan("createTorrentInAppDir", Dict(m)).Invoke? ==>
              Plan("createTorrentInAppDir", Dict(m)) == Reply(InvalidArgument("filePath is required"))
  {
  }

  /** The documented default of each `addTorrent` flag. */
  function FlagDefault(key: string): bool
  {
    key in {"enableDHT", "enableLSD", "enableUTP", "enablePeerExchange"}
  }

  const FlagKeys: seq<string> :=
    ["seedMode", "announce", "enableDHT", "enableLSD", "enableUTP", "enableTrackers", "enablePeerExchange"]

  /** The flag of an `addTorrent` call that a map key feeds. */
  function CallFlag(c: Call, key: string): bool
    requires c.AddTorrent?
  {
    match key
    case "seedMode" => c.seedMode
    case "announce" => c.announce
    case "enableDHT" => c.enableDht
    case "enableLSD" => c.enableLsd
    case "enableUTP" => c.enableUtp
    case "enableTrackers" => c.enableTrackers
    case _ => c.enablePeerExchange
  }

  /**
    Each `addTorrent` flag is the map's Boolean under its key when there is
    one, and its default (`seedMode`, `announce`, `enableTrackers` off; the
    others on) when the key is absent or holds anything else. The paths are
    passed as given.
   */
  lemma AddTorrentFlags(m: map<string, Value>)
    requires HasText(m, "filePath") && HasText(m, "savePath")
    ensures Plan("addTorrent", Dict(m)).Invoke?
    ensures var c := Plan("addTorrent", Dict(m)).call;
            c.AddTorrent? && c.filePath == m["filePath"].s && c.savePath == m["savePath"].s &&
            forall i :: 0 <= i < |FlagKeys| ==>
              CallFlag(c, FlagKeys[i]) == if FlagKeys[i] in m && m[FlagKeys[i]].Bool? then m[FlagKeys[i]].b else FlagDefault(FlagKeys[i])
  {
    var c := Plan("addTorrent", Dict(m)).call;
    forall i | 0 <= i < |FlagKeys|
      ensures CallFlag(c, FlagKeys[i]) == if FlagKeys[i] in m && m[FlagKeys[i]].Bool? then m[FlagKeys[i]].b else FlagDefault(FlagKeys[i])
    {
      if i == 0 {} else if i == 1 {} else if i == 2 {} else if i == 3 {} else if i == 4 {} else if i == 5 {} else {}
    }
  }

  /** The tracker filter distributes over concatenation. */
  lemma {:induction false} StringsOfAppend(xs: seq<Value>, ys: seq<Value>)
    ensures StringsOf(xs + ys) == StringsOf(xs) + StringsOf(ys)
    decreases |xs|
  {
    if xs == [] {
      assert xs + ys == ys;
    } else {
      var zs := xs + ys;
      assert zs[0] == xs[0] && zs[1..] == xs[1..] + ys;
      calc {
        StringsOf(zs);
        Kept(xs[0]) + StringsOf(xs[1..] + ys);
        { StringsOfAppend(xs[1..], ys); }
        Kept(xs[0]) + (StringsOf(xs[1..]) + StringsOf(ys));
        (Kept(xs[0]) + StringsOf(xs[1..])) + StringsOf(ys);
      }
    }
  }

  /** The tracker filter keeps every string of the list as many times as it occurs, and no more elements than the list has. */
  lemma {:induction false} StringsOfCount(xs: seq<Value>)
    ensures forall s :: multiset(StringsOf(xs))[s] == multiset(xs)[Str(s)]
    ensures |StringsOf(xs)| <= |xs|
    decreases |xs|
  {
    if xs != [] {
      var h, t := xs[0], xs[1..];
      StringsOfCount(t);
      assert xs == [h] + t;
      assert StringsOf(xs) == Kept(h) + StringsOf(t);
      forall s
        ensures multiset(StringsOf(xs))[s] == multiset(xs)[Str(s)]
      {
        assert multiset(Kept(h))[s] == multiset([h])[Str(s)];
      }
    }
  }

  /** The tracker filter keeps exactly the strings of the list. */
  lemma StringsOfMembers(xs: seq<Value>)
    ensures forall s :: s in StringsOf(xs) <==> Str(s) in xs
  {
    StringsOfCount(xs);
    forall s
      ensures s in StringsOf(xs) <==> Str(s) in xs
    {
      assert s in StringsOf(xs) <==> multiset(StringsOf(xs))[s] > 0;
      assert Str(s) in xs <==> multiset(xs)[Str(s)] > 0;
    }
  }

  /** A list of strings only is passed on unchanged, in order. */
  lemma {:induction false} StringsOfAllStrings(ss: seq<string>)
    ensures StringsOf(seq(|ss|, i requires 0 <= i < |ss| => Str(ss[i]))) == ss
    decreases |ss|
  {
    if ss != [] {
      var xs := seq(|ss|, i requires 0 <= i < |ss| => Str(ss[i]));
      StringsOfAllStrings(ss[1..]);
      assert xs[1..] == seq(|ss[1..]|, i requires 0 <= i < |ss[1..]| => Str(ss[1..][i]));
    }
  }

  /**
    The tracker array of both create methods is null when `trackers` is absent
    or not a list, and the list's strings in order otherwise.
   */
  lemma CreateTrackers(m: map<string, Value>)
    requires HasText(m, "filePath")
    ensures var c := Plan("createTorrentInAppDir", Dict(m)).call;
            c == CreateTorrentInAppDir(m["filePath"].s,
                   if "trackers" in m && m["trackers"].List? then Some(StringsOf(m["trackers"].items)) else None)
    ensures HasText(m, "outputPath") ==>
              var c := Plan("createTorrent", Dict(m)).call;
              c == CreateTorrent(m["filePath"].s, m["outputPath"].s,
                     if "trackers" in m && m["trackers"].List? then Some(StringsOf(m["trackers"].items)) else None)
  {
  }

  /**
    When the table answers by itself, the wrapper is not consulted: any two
    wrappers give the same response. When it calls the wrapper, a normal
    return is passed on as success, an `Exception` becomes `ERROR` with the
    exception's message, and any other throwable leaves without a response.
   */
  lemma WrapperUse(name: string, args: Value, w1: Call -> Outcome, w2: Call -> Outcome)
    ensures Plan(name, args).Reply? ==> Handle(name, args, w1) == Handle(name, args, w2) == Some(Plan(name, args).response)
    ensures Plan(name, args).Invoke? && w1(Plan(name, args).call).Returned? ==>
              Handle(name, args, w1) == Some(Response.Success(w1(Plan(name, args).call).value))
    ensures Plan(name, args).Invoke? && w1(Plan(name, args).call).Threw? ==>
              Handle(name, args, w1) == Some(Error("ERROR", w1(Plan(name, args).call).message))
    ensures Plan(name, args).Invoke? && w1(Plan(name, args).call).Escaped? ==> Handle(name, args, w1) == None
  {
  }

  /** Exactly the unknown method names are answered not-implemented, whatever the argument and the wrapper. */
  lemma NotImplementedIff(name: string, args: Value, wrapper: Call -> Outcome)
    ensures Handle(name, args, wrapper) == Some(NotImplemented) <==> name !in KnownMethods
  {
  }

  /** The native flags of an `addTorrent` call: its first six booleans; `enablePeerExchange` has no native counterpart. */
  function NativeFlags(c: Call): Settings.AddFlags
    requires c.AddTorrent?
  {
    Settings.AddFlags(c.seedMode, c.announce, c.enableDht, c.enableLsd, c.enableUtp, c.enableTrackers)
  }

  /**
    An `addTorrent` request that sets no flag ends up applying DHT, local
    peer discovery and uTP on, UPnP and NAT-PMP off, and no seed mode.
   */
  lemma DefaultFlagsSettings(m: map<string, Value>)
    requires HasText(m, "filePath") && HasText(m, "savePath")
    requires forall i :: 0 <= i < |FlagKeys| ==> FlagKeys[i] !in m
    ensures Plan("addTorrent", Dict(m)).Invoke?
    ensures var f := NativeFlags(Plan("addTorrent", Dict(m)).call);
            !f.seedMode &&
            Settings.FlagSettings(f) == Settings.Pack(true, true, false, false, true, true)
  {
    assert FlagKeys[0] !in m && FlagKeys[1] !in m && FlagKeys[2] !in m && FlagKeys[3] !in m && FlagKeys[4] !in m;
  }
}
