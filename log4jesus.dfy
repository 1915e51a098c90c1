/** The earlier router of log4jesus.js: a built-in default configuration, parseStreams without
    ids or tag normalisation, a lookup that wraps scalar tags in place as it goes, `log` over
    the "all" streams and a `logt` that writes once per match, duplicates included. */
module Log4Jesus {
  import opened ConfigModel
  import opened Lookup
  import opened Sink

  // ---------------------------------------------------------------------------
  // Loading the configuration
  // ---------------------------------------------------------------------------

  /** A configuration entry with only the fields the default configuration sets. */
  function Target(tags: Field, stdstream: Option<string>, url: Option<string>): Entry {
    Entry(tags, Absent, stdstream, url, None, None, None, false)
  }

  /** The configuration used when no configuration file can be read. */
  function DefaultConfig(): Registry {
    Registry(
      [Target(Scalar("all"), None, None)],
      [ Target(Scalar("error"), Some("stderr"), None),
        Target(Scalar("warn"), Some("stdout"), None),
        Target(Scalar("info"), Some("stdout"), None),
        Target(Scalar("verbose"), Some("stdout"), None),
        Target(List(["all", "log"]), Some("stdout"), None)],
      [Target(Scalar("none"), None, Some("http://localhost:8080"))])
  }

  /** What reading the configuration file gives: no readable file, or its contents, which
      either parse as a configuration object or are not valid JSON. */
  datatype ConfigSource = NoConfigFile | Contents(json: Option<Registry>)

  /** The file loop opens a write stream for each entry, and the console loop attaches the
      named standard stream: either way the entry holds a stream. */
  function AttachStream(e: Entry): Entry {
    e.(stream := true)
  }

  /** The http loop defaults the method and the content-type. */
  function ParseHttp(e: Entry): Entry {
    e.(httpMethod := DefaultMethod(e.httpMethod), headers := DefaultHeaders(e.headers))
  }

  /** The configuration as parseStreams leaves it when no entry is fatal. */
  function Parse(reg: Registry): Registry {
    Registry(
      seq(|reg.file|, i requires 0 <= i < |reg.file| => AttachStream(reg.file[i])),
      seq(|reg.console|, i requires 0 <= i < |reg.console| => AttachStream(reg.console[i])),
      seq(|reg.http|, i requires 0 <= i < |reg.http| => ParseHttp(reg.http[i])))
  }

  /** What a successful parse guarantees: every file and console entry holds a stream, every
      http entry a method and a content-type; nothing else about an entry changes. */
  lemma ParsedShape(reg: Registry, unopenable: set<nat>)
    requires ParseError(reg, unopenable).None?
    ensures var p := Parse(reg);
      && |p.file| == |reg.file| && |p.console| == |reg.console| && |p.http| == |reg.http|
      && (forall i :: 0 <= i < |p.file| ==> p.file[i].stream && p.file[i].(stream := false) == reg.file[i].(stream := false))
      && (forall i :: 0 <= i < |p.console| ==>
            && p.console[i].stream && StdStreamOk(p.console[i])
            && p.console[i].(stream := false) == reg.console[i].(stream := false))
      && (forall i :: 0 <= i < |p.http| ==>
            && HasUrl(p.http[i]) && Present(p.http[i].httpMethod) && HasContentType(p.http[i].headers)
            && p.http[i].(httpMethod := reg.http[i].httpMethod, headers := reg.http[i].headers) == reg.http[i])
  {
  }

  /** The file loop of parseStreams, stopping at the first entry whose stream cannot be opened. */
  method ParseFiles(config: Config, unopenable: set<nat>) returns (bad: Option<nat>)
    modifies config
    ensures config.console == old(config.console) && config.http == old(config.http)
    ensures bad.Some? ==>
      bad.value < |old(config.file)| && bad.value in unopenable && forall j :: 0 <= j < bad.value ==> j !in unopenable
    ensures bad.None? ==>
      && (forall j :: 0 <= j < |old(config.file)| ==> j !in unopenable)
      && |config.file| == |old(config.file)|
      && forall j :: 0 <= j < |config.file| ==> config.file[j] == AttachStream(old(config.file[j]))
  {
    var i := 0;
    while i < |config.file|
      invariant 0 <= i <= |config.file| == |old(config.file)|
      invariant config.console == old(config.console) && config.http == old(config.http)
      invariant forall j :: 0 <= j < i ==> j !in unopenable && config.file[j] == AttachStream(old(config.file[j]))
      invariant forall j :: i <= j < |config.file| ==> config.file[j] == old(config.file[j])
    {
      if i in unopenable {
        return Some(i);
      }
      config.file := config.file[i := AttachStream(config.file[i])];
      i := i + 1;
    }
    return None;
  }

  /** The console loop of parseStreams: `stdstream` must name a standard stream. */
  method ParseConsoles(config: Config) returns (bad: Option<nat>)
    modifies config
    ensures config.file == old(config.file) && config.http == old(config.http)
    ensures bad.Some? ==>
      && bad.value < |old(config.console)| && !StdStreamOk(old(config.console[bad.value]))
      && forall j :: 0 <= j < bad.value ==> StdStreamOk(old(config.console[j]))
    ensures bad.None? ==>
      && (forall j :: 0 <= j < |old(config.console)| ==> StdStreamOk(old(config.console[j])))
      && |config.console| == |old(config.console)|
      && forall j :: 0 <= j < |config.console| ==> config.console[j] == AttachStream(old(config.console[j]))
  {
    var i := 0;
    while i < |config.console|
      invariant 0 <= i <= |config.console| == |old(config.console)|
      invariant config.file == old(config.file) && config.http == old(config.http)
      invariant forall j :: 0 <= j < i ==> StdStreamOk(old(config.console[j])) && config.console[j] == AttachStream(old(config.console[j]))
      invariant forall j :: i <= j < |config.console| ==> config.console[j] == old(config.console[j])
    {
      var tty := config.console[i];
      if !(tty.stdstream == Some("stdout") || tty.stdstream == Some("stderr") || tty.stdstream == Some("stdin")) {
        return Some(i);
      }
      config.console := config.console[i := AttachStream(tty)];
      i := i + 1;
    }
    return None;
  }

  /** The http loop of parseStreams: method and headers defaults, stopping at the first
      entry without a url. */
  method ParseHttps(config: Config) returns (bad: Option<nat>)
    modifies config
    ensures config.file == old(config.file) && config.console == old(config.console)
    ensures bad.Some? ==>
      && bad.value < |old(config.http)| && !HasUrl(old(config.http[bad.value]))
      && forall j :: 0 <= j < bad.value ==> HasUrl(old(config.http[j]))
    ensures bad.None? ==>
      && (forall j :: 0 <= j < |old(config.http)| ==> HasUrl(old(config.http[j])))
      && |config.http| == |old(config.http)|
      && forall j :: 0 <= j < |config.http| ==> config.http[j] == ParseHttp(old(config.http[j]))
  {
    var i := 0;
    while i < |config.http|
      invariant 0 <= i <= |config.http| == |old(config.http)|
      invariant config.file == old(config.file) && config.console == old(config.console)
      invariant forall j :: 0 <= j < i ==> HasUrl(old(config.http[j])) && config.http[j] == ParseHttp(old(config.http[j]))
      invariant forall j :: i <= j < |config.http| ==> config.http[j] == old(config.http[j])
    {
      var h := config.http[i];
      if !Present(h.url) {
        return Some(i);
      }
      config.http := config.http[i := ParseHttp(h)];
      i := i + 1;
    }
    return None;
  }

  /** `parseStreams(config)`: normalises the configuration object in place, stopping at the
      first fatal entry (`process.exit(1)` in the source). */
  method ParseStreams(config: Config, unopenable: set<nat>) returns (err: Option<LoadError>)
    modifies config
    ensures err == ParseError(old(config.Value()), unopenable)
    ensures err.None? ==> config.Value() == Parse(old(config.Value()))
  {
    ghost var raw := config.Value();
    var bad := ParseFiles(config, unopenable);
    if bad.Some? {
      ParseErrorAt(raw, unopenable, bad.value);
      return Some(OpenFailed(bad.value));
    }
    bad := ParseConsoles(config);
    if bad.Some? {
      ParseErrorAt(raw, unopenable, bad.value);
      return Some(BadStdStream(bad.value));
    }
    bad := ParseHttps(config);
    if bad.Some? {
      ParseErrorAt(raw, unopenable, bad.value);
      return Some(MissingUrl(bad.value));
    }
    ghost var p := Parse(raw);
    assert config.file == p.file;
    assert config.console == p.console;
    assert config.http == p.http;
    return None;
  }

  /** The configuration parseStreams is run on: the default one when there is no file. */
  function SourceConfig(source: ConfigSource): Option<Registry> {
    match source
    case NoConfigFile => Some(DefaultConfig())
    case Contents(json) => json
  }

  /** The fatal error loading stops at: invalid JSON, else the first fatal entry. */
  function ConfigOutcome(source: ConfigSource, unopenable: set<nat>): (err: Option<LoadError>)
    ensures err == Some(InvalidJson) <==> source == Contents(None)
    ensures err.None? <==> SourceConfig(source).Some? && ParseError(SourceConfig(source).value, unopenable).None?
  {
    match SourceConfig(source)
    case None => Some(InvalidJson)
    case Some(reg) => ParseError(reg, unopenable)
  }

  /** `loadAndParseConfig(path)`: the file's JSON, or the default configuration when the file
      cannot be read, normalised by parseStreams. */
  method LoadAndParseConfig(source: ConfigSource, unopenable: set<nat>) returns (config: Config?, err: Option<LoadError>)
    ensures err == ConfigOutcome(source, unopenable)
    ensures (config != null) == err.None?
    ensures config != null ==> fresh(config) && config.Value() == Parse(SourceConfig(source).value)
  {
    var reg: Registry;
    match source {
      case NoConfigFile =>
        reg := DefaultConfig();
      case Contents(json) =>
        if json.None? {
          return null, Some(InvalidJson);
        }
        reg := json.value;
    }
    config := new Config(reg);
    err := ParseStreams(config, unopenable);
    if err.Some? {
      config := null;
    }
  }

  /** With its stream openable, the default configuration loads, and it is the configuration
      used exactly when there is no configuration file. */
  lemma DefaultConfigLoads(unopenable: set<nat>)
    requires 0 !in unopenable
    ensures ConfigOutcome(NoConfigFile, unopenable).None?
    ensures forall s: ConfigSource :: SourceConfig(s) == Some(DefaultConfig()) <==> s in {NoConfigFile, Contents(Some(DefaultConfig()))}
  {
    var reg := DefaultConfig();
    assert StdStreamOk(reg.console[0]) && StdStreamOk(reg.console[1]) && StdStreamOk(reg.console[2]);
    assert StdStreamOk(reg.console[3]) && StdStreamOk(reg.console[4]);
    assert HasUrl(reg.http[0]);
  }

  // ---------------------------------------------------------------------------
  // Lookup, wrapping scalar tags in place
  // ---------------------------------------------------------------------------

  /** `if (!Array.isArray(stream.tags)) stream.tags = [ stream.tags ]`: a list stays, a scalar
      (even the empty string) becomes a one-element list. */
  function WrapTags(f: Field): (r: Field)
    ensures r.List?
    ensures f.List? ==> r == f
    ensures f.Scalar? ==> r == List([f.s])
    ensures Iterable(f) ==> TagsOf(r) == TagsOf(f)
  {
    match f
    case List(_) => f
    case Scalar(s) => List([s])
    case Absent => List([])
  }

  /** Wrapping twice is wrapping once: later lookups leave a wrapped entry alone. */
  lemma WrapIdempotent(f: Field)
    ensures WrapTags(WrapTags(f)) == WrapTags(f)
  {
  }

  function WrapEntry(e: Entry): Entry {
    e.(tags := WrapTags(e.tags))
  }

  /** The entries of one kind after a lookup has been through them. */
  function Wrapped(es: seq<Entry>): (r: seq<Entry>)
    ensures |r| == |es|
    ensures forall e <- r :: e.tags.List?
  {
    if es == [] then [] else Wrapped(es[..|es| - 1]) + [WrapEntry(es[|es| - 1])]
  }

  /** Wrapping keeps the entries and their order. */
  lemma {:induction false} WrappedAt(es: seq<Entry>, i: nat)
    requires i < |es|
    ensures Wrapped(es)[i] == WrapEntry(es[i])
  {
    if i < |es| - 1 {
      WrappedAt(es[..|es| - 1], i);
    }
  }

  /** The configuration after a lookup: every entry's tags a list. */
  function WrapAll(reg: Registry): (r: Registry)
    ensures RegistryIterable(r) && AllWrapped(r)
  {
    Registry(Wrapped(reg.file), Wrapped(reg.console), Wrapped(reg.http))
  }

  /** Every entry's tags are a list. */
  predicate AllWrapped(reg: Registry) {
    && (forall e <- reg.file :: e.tags.List?)
    && (forall e <- reg.console :: e.tags.List?)
    && (forall e <- reg.http :: e.tags.List?)
  }

  lemma {:induction false} WrappedFixed(es: seq<Entry>)
    requires forall e <- es :: e.tags.List?
    ensures Wrapped(es) == es
  {
    if es != [] {
      WrappedFixed(es[..|es| - 1]);
      assert es == es[..|es| - 1] + [es[|es| - 1]];
    }
  }

  /** A lookup changes the configuration only the first time: once every entry's tags are a
      list, wrapping leaves it as it is. */
  lemma WrapAllFixed(reg: Registry)
    ensures WrapAll(WrapAll(reg)) == WrapAll(reg)
    ensures AllWrapped(reg) <==> WrapAll(reg) == reg
  {
    var w := WrapAll(reg);
    WrappedFixed(w.file);
    WrappedFixed(w.console);
    WrappedFixed(w.http);
    if AllWrapped(reg) {
      WrappedFixed(reg.file);
      WrappedFixed(reg.console);
      WrappedFixed(reg.http);
    }
  }

  /** Wrapping changes nothing but the tags; a matched copy's tags are what the configured
      field held. */
  lemma WrappedEntries(es: seq<Entry>, i: nat)
    requires i < |es|
    ensures Wrapped(es)[i].(tags := es[i].tags) == es[i]
    ensures Iterable(es[i].tags) ==> Items(Wrapped(es)[i].tags) == TagsOf(es[i].tags)
  {
    WrappedAt(es, i);
  }

  /** One step of the lookup loop: the entries before i are wrapped, the rest as configured;
      the i-th entry gets wrapped and its copies pushed. */
  lemma WrapStep(es: seq<Entry>, i: nat, streams: seq<Entry>, q: seq<string>, kind: Kind)
    requires i < |es| && streams == Wrapped(es[..i]) + es[i..]
    ensures streams[i] == es[i]
    ensures es[i].tags.List? ==> WrapEntry(es[i]) == es[i] && streams == Wrapped(es[..i + 1]) + es[i + 1..]
    ensures !es[i].tags.List? ==> streams[i := WrapEntry(es[i])] == Wrapped(es[..i + 1]) + es[i + 1..]
    ensures Matches(Wrapped(es[..i + 1]), q, kind)
         == Matches(Wrapped(es[..i]), q, kind) + Copies(Copy(kind, WrapEntry(es[i])), Hits(WrapEntry(es[i]).tags.items, q))
  {
    assert es[..i + 1][..i] == es[..i];
    var ws := Wrapped(es[..i + 1]);
    assert ws[..i] == Wrapped(es[..i]);
    assert streams[i := WrapEntry(es[i])] == Wrapped(es[..i]) + [WrapEntry(es[i])] + es[i + 1..];
  }

  /** `getStreamsOfTypeAndTags(tags, type)`: wraps each entry's scalar tags in the
      configuration object, then pushes one copy per equal (entry tag, query tag) pair. */
  method GetStreamsOfTypeAndTags(config: Config, tags: seq<string>, kind: Kind) returns (out: seq<Copy>)
    modifies config
    ensures config.Value() == old(config.Value()).With(kind, Wrapped(old(config.Value()).Of(kind)))
    ensures out == Matches(Wrapped(old(config.Value()).Of(kind)), tags, kind)
  {
    ghost var raw := config.Value();
    ghost var es := raw.Of(kind);
    var streams := config.Value().Of(kind);
    out := [];
    var i := 0;
    while i < |streams|
      invariant 0 <= i <= |streams| == |es|
      invariant config.Value() == raw.With(kind, streams)
      invariant streams == Wrapped(es[..i]) + es[i..]
      invariant out == Matches(Wrapped(es[..i]), tags, kind)
    {
      var stream := streams[i];
      WrapStep(es, i, streams, tags, kind);
      if !stream.tags.List? {
        stream := stream.(tags := WrapTags(stream.tags));
        raw.WithTwice(kind, streams, streams[i := stream]);
        streams := streams[i := stream];
        config.Put(kind, streams);
      }
      assert stream == WrapEntry(es[i]);
      out := PushMatches(out, Copy(kind, stream), stream.tags.items, tags);
      i := i + 1;
    }
    assert es[..i] == es;
  }

  /** `getStreamsByTags(tags)`: a scalar query is wrapped; file matches, then console matches,
      then http matches; every entry's tags end up wrapped in the configuration object. */
  method GetStreamsByTags(config: Config, tags: TagArg) returns (out: seq<Copy>)
    modifies config
    ensures config.Value() == WrapAll(old(config.Value()))
    ensures out == Resolve(WrapAll(old(config.Value())), QueryOf(tags))
  {
    var q := QueryOf(tags);
    var files := GetStreamsOfTypeAndTags(config, q, File);
    var consoles := GetStreamsOfTypeAndTags(config, q, Console);
    var https := GetStreamsOfTypeAndTags(config, q, Http);
    out := files + consoles + https;
  }

  /** The lookup on the raw configuration matches on the tags as written, a scalar being one
      tag: a configured entry is found exactly when it has tags and shares one with the query. */
  lemma WrappedLookup(reg: Registry, q: seq<string>, kind: Kind, i: nat)
    requires i < |reg.Of(kind)|
    ensures var e := reg.Of(kind)[i];
      Copy(kind, WrapEntry(e)) in Resolve(WrapAll(reg), q) <==> Iterable(e.tags) && Shares(TagsOf(e.tags), q)
  {
    var w := WrapAll(reg);
    var es := reg.Of(kind);
    var e := es[i];
    assert w.Of(kind) == Wrapped(es);
    WrappedAt(es, i);
    ResolveExactly(w, q, Copy(kind, WrapEntry(e)));
  }

  // ---------------------------------------------------------------------------
  // The logger
  // ---------------------------------------------------------------------------

  /** The loaded module: the configuration object, the "all" copies computed at load time,
      and every write issued so far. `loaded` is the configuration once the load-time lookup
      has wrapped its tags. */
  class Logger {
    const config: Config
    ghost const loaded: Registry
    const alwaysStreams: seq<Copy>
    var trace: seq<Write>

    /** Set at load: the tags are wrapped and alwaysStreams is the "all" lookup. */
    ghost predicate Wired() {
      AllWrapped(loaded) && alwaysStreams == Resolve(loaded, [AlwaysTag])
    }

    /** The configuration object still holds what loading left in it. */
    ghost predicate Valid()
      reads config
    {
      config.Value() == loaded
    }

    constructor (config: Config, alwaysStreams: seq<Copy>)
      requires AllWrapped(config.Value()) && RegistryIterable(config.Value())
      requires alwaysStreams == Resolve(config.Value(), [AlwaysTag])
      ensures Wired() && Valid()
      ensures this.config == config && loaded == config.Value() && this.alwaysStreams == alwaysStreams && trace == []
    {
      this.config := config;
      loaded := config.Value();
      this.alwaysStreams := alwaysStreams;
      trace := [];
    }

    /** The body of the loops of `log` and `logt`: the stream if the copy holds one, else a
        request for an http copy. */
    method WriteTo(s: Copy, args: seq<string>)
      modifies this
      ensures trace == old(trace) + WriteOf(s, args)
    {
      if s.entry.stream {
        trace := trace + [Write(s, Stream, args)];
      } else if s.kind == Http {
        trace := trace + [Write(s, Request, args)];
      }
    }

    /** One write per copy, in order, duplicates included. */
    method WriteAll(streams: seq<Copy>, args: seq<string>)
      modifies this
      ensures trace == old(trace) + Writes(streams, args)
    {
      for i := 0 to |streams|
        invariant trace == old(trace) + Writes(streams[..i], args)
      {
        assert streams[..i + 1] == streams[..i] + [streams[i]];
        WritesSnoc(old(trace), streams[..i], streams[i], args);
        WriteTo(streams[i], args);
      }
      assert streams[..|streams|] == streams;
    }

    /** `log(...args)`: the same output to every "all" copy, in order. */
    method Log(args: seq<string>)
      modifies this
      ensures trace == old(trace) + Writes(alwaysStreams, args)
    {
      WriteAll(alwaysStreams, args);
    }

    /** `logt(tags, ...args)` as evidently intended: the output once per match of the tags,
        duplicates included, and not to the "all" copies unless they match. The lookup leaves
        the already wrapped configuration as it is. */
    method Logt(tags: TagArg, args: seq<string>)
      requires Wired() && Valid()
      modifies this, config
      ensures Valid()
      ensures trace == old(trace) + Writes(Resolve(loaded, QueryOf(tags)), args)
    {
      WrapAllFixed(loaded);
      var streams := GetStreamsByTags(config, tags);
      WriteAll(streams, args);
    }

    /** `logt(tags, ...args)` as written: the loop passes the undefined `output` to the first
        copy it writes to, which throws a ReferenceError before anything is written. */
    method LogtAsWritten(tags: TagArg, args: seq<string>) returns (thrown: bool)
      requires Wired() && Valid()
      modifies this, config
      ensures Valid() && trace == old(trace)
      ensures thrown <==> exists c <- Resolve(loaded, QueryOf(tags)) :: Deliverable(c)
    {
      WrapAllFixed(loaded);
      var streams := GetStreamsByTags(config, tags);
      for i := 0 to |streams|
        invariant forall j :: 0 <= j < i ==> !Deliverable(streams[j])
      {
        if streams[i].entry.stream || streams[i].kind == Http {
          assert streams[i] in streams;
          return true;
        }
      }
      return false;
    }
  }

  /** Module load: the configuration, then `alwaysStreams = getStreamsByTags("all")`, whose
      lookup wraps every entry's tags. */
  method Load(source: ConfigSource, unopenable: set<nat>) returns (logger: Logger?, err: Option<LoadError>)
    ensures err == ConfigOutcome(source, unopenable)
    ensures (logger != null) == err.None?
    ensures logger != null ==>
      && fresh(logger) && fresh(logger.config) && logger.Wired() && logger.Valid()
      && logger.loaded == WrapAll(Parse(SourceConfig(source).value)) && logger.trace == []
  {
    var config;
    config, err := LoadAndParseConfig(source, unopenable);
    if config == null {
      return null, err;
    }
    var always := GetStreamsByTags(config, One(AlwaysTag));
    logger := new Logger(config, always);
  }

  // ---------------------------------------------------------------------------
  // Properties
  // ---------------------------------------------------------------------------

  /** The configuration loaded from no file. */
  function DefaultLoaded(): Registry {
    WrapAll(Parse(DefaultConfig()))
  }

  /** A file or console entry of the default configuration once loaded. */
  function Ready(tags: seq<string>, stdstream: Option<string>): Entry {
    Entry(List(tags), Absent, stdstream, None, None, None, None, true)
  }

  /** The default configuration as loading leaves it: every file and console entry holds a
      stream, the http entry has the POST method and a plain-text content-type, and every
      entry's tags are a list. */
  function DefaultReady(): Registry {
    Registry(
      [Ready(["all"], None)],
      [ Ready(["error"], Some("stderr")), Ready(["warn"], Some("stdout")), Ready(["info"], Some("stdout")),
        Ready(["verbose"], Some("stdout")), Ready(["all", "log"], Some("stdout"))],
      [Entry(List(["none"]), Absent, None, Some("http://localhost:8080"), Some(Post), Some(map[ContentType := TextPlain]), None, false)])
  }

  /** Loading the default configuration gives DefaultReady. */
  lemma DefaultLoadedIs()
    ensures DefaultLoaded() == DefaultReady()
  {
    var p := Parse(DefaultConfig());
    DefaultFilesLoaded(p);
    DefaultConsolesLoaded(p);
    DefaultHttpLoaded(p);
  }

  lemma DefaultFilesLoaded(p: Registry)
    requires p == Parse(DefaultConfig())
    ensures Wrapped(p.file) == DefaultReady().file
  {
    WrappedAt(p.file, 0);
  }

  lemma DefaultConsolesLoaded(p: Registry)
    requires p == Parse(DefaultConfig())
    ensures Wrapped(p.console) == DefaultReady().console
  {
    WrappedAt(p.console, 0);
    WrappedAt(p.console, 1);
    WrappedAt(p.console, 2);
    WrappedAt(p.console, 3);
    WrappedAt(p.console, 4);
  }

  lemma DefaultHttpLoaded(p: Registry)
    requires p == Parse(DefaultConfig())
    ensures Wrapped(p.http) == DefaultReady().http
  {
    WrappedAt(p.http, 0);
  }

  lemma CountOne(x: string, t: string)
    ensures Count([x], t) == if x == t then 1 else 0
  {
    assert [x][..0] == [];
  }

  lemma CountTwo(x: string, y: string, t: string)
    ensures Count([x, y], t) == (if x == t then 1 else 0) + (if y == t then 1 else 0)
  {
    assert [x, y][..1] == [x];
    CountOne(x, t);
  }

  /** The tags and streams of the loaded default configuration, entry by entry. */
  predicate DefaultShaped(reg: Registry) {
    && |reg.file| == 1 && |reg.console| == 5 && |reg.http| == 1
    && reg.file[0].tags == List(["all"])
    && reg.console[0].tags == List(["error"]) && reg.console[1].tags == List(["warn"])
    && reg.console[2].tags == List(["info"]) && reg.console[3].tags == List(["verbose"])
    && reg.console[4].tags == List(["all", "log"])
    && reg.http[0].tags == List(["none"])
    && reg.file[0].stream && reg.console[0].stream && reg.console[1].stream
    && reg.console[2].stream && reg.console[3].stream && reg.console[4].stream
    && !reg.http[0].stream
  }

  lemma DefaultReadyShaped()
    ensures DefaultShaped(DefaultReady())
  {
  }

  lemma DefaultShapedIterable(reg: Registry)
    requires DefaultShaped(reg)
    ensures RegistryIterable(reg)
  {
    assert forall i :: 0 <= i < 5 ==> reg.console[i].tags.List?;
  }

  /** On the loaded default configuration, `log` goes to the file and to the console tagged
      ["all", "log"] on stdout, and not to the other consoles or the http target. */
  lemma DefaultAlwaysStreams(reg: Registry)
    requires DefaultShaped(reg)
    ensures RegistryIterable(reg)
    ensures Copy(File, reg.file[0]) in Resolve(reg, [AlwaysTag])
    ensures Copy(Console, reg.console[4]) in Resolve(reg, [AlwaysTag])
    ensures forall i :: 0 <= i < 4 ==> Copy(Console, reg.console[i]) !in Resolve(reg, [AlwaysTag])
    ensures Copy(Http, reg.http[0]) !in Resolve(reg, [AlwaysTag])
  {
    var q := [AlwaysTag];
    DefaultShapedIterable(reg);
    assert AlwaysTag in Items(reg.file[0].tags);
    MatchesComplete(reg.file, q, File, reg.file[0]);
    assert AlwaysTag in Items(reg.console[4].tags);
    MatchesComplete(reg.console, q, Console, reg.console[4]);
    ResolveSound(reg, q);
    forall i | 0 <= i < 4 ensures !Shares(Items(reg.console[i].tags), q) {
      assert |Items(reg.console[i].tags)| == 1;
    }
    assert !Shares(Items(reg.http[0].tags), q);
  }

  lemma DefaultConsoleOnce(reg: Registry)
    requires DefaultShaped(reg)
    ensures multiset(reg.console)[reg.console[4]] == 1
  {
    assert reg.console == reg.console[..4] + [reg.console[4]];
    forall i | 0 <= i < 4 ensures reg.console[..4][i] != reg.console[4] {
      assert reg.console[i].tags != reg.console[4].tags;
    }
    assert reg.console[4] !in reg.console[..4];
  }

  lemma HitsAllLog()
    ensures Hits(["all", "log"], ["all", "log"]) == 2
  {
    CountTwo("all", "log", "all");
    CountTwo("all", "log", "log");
    assert ["all", "log"][..1] == ["all"];
    assert ["all"][..0] == [];
  }

  /** `logt` keeps duplicates: on the loaded default configuration, logging with the tags
      ["all", "log"] writes twice to the console tagged ["all", "log"]. */
  lemma LogtKeepsDuplicates(reg: Registry)
    requires DefaultShaped(reg)
    ensures RegistryIterable(reg) && multiset(Resolve(reg, ["all", "log"]))[Copy(Console, reg.console[4])] == 2
  {
    var q := ["all", "log"];
    var c := Copy(Console, reg.console[4]);
    DefaultShapedIterable(reg);
    MatchesMultiplicity(reg.console, q, Console, reg.console[4]);
    DefaultConsoleOnce(reg);
    HitsAllLog();
    MatchesSound(reg.file, q, File);
    MatchesSound(reg.http, q, Http);
    assert c !in Matches(reg.file, q, File);
    assert c !in Matches(reg.http, q, Http);
  }

  /** On a parsed configuration every file and console entry holds a stream, so every copy
      the lookup finds is written to, and `logt` as written throws exactly when some entry
      matches the tags. */
  lemma AsWrittenThrowsOnAnyMatch(reg: Registry, q: seq<string>)
    ensures (exists c <- Resolve(WrapAll(Parse(reg)), q) :: Deliverable(c)) <==> Resolve(WrapAll(Parse(reg)), q) != []
  {
    var r := Resolve(WrapAll(Parse(reg)), q);
    if r != [] {
      assert r[0] in r;
      ParsedCopyDeliverable(reg, q, r[0]);
    }
  }

  /** Every copy found on a parsed configuration is written to. */
  lemma ParsedCopyDeliverable(reg: Registry, q: seq<string>, c: Copy)
    requires c in Resolve(WrapAll(Parse(reg)), q)
    ensures Deliverable(c)
  {
    var p := Parse(reg);
    ResolveSound(WrapAll(p), q);
    if c.kind == File {
      WrappedStream(p.file, c.entry);
    } else if c.kind == Console {
      WrappedStream(p.console, c.entry);
    }
  }

  /** Wrapping keeps the stream handles. */
  lemma WrappedStream(es: seq<Entry>, e: Entry)
    requires (forall x <- es :: x.stream) && e in Wrapped(es)
    ensures e.stream
  {
    var i :| 0 <= i < |es| && Wrapped(es)[i] == e;
    WrappedAt(es, i);
    assert es[i] in es;
  }

  /** The counterexample: `logt("error", ...)` on the default configuration throws, since the
      stderr console matches. */
  lemma DefaultErrorLogtThrows(reg: Registry)
    requires DefaultShaped(reg)
    ensures RegistryIterable(reg)
    ensures Copy(Console, reg.console[0]) in Resolve(reg, QueryOf(One("error")))
    ensures exists c <- Resolve(reg, QueryOf(One("error"))) :: Deliverable(c)
  {
    var q := QueryOf(One("error"));
    DefaultShapedIterable(reg);
    assert "error" in Items(reg.console[0].tags) && "error" in q;
    MatchesComplete(reg.console, q, Console, reg.console[0]);
    assert Copy(Console, reg.console[0]) in Resolve(reg, q);
  }
}
