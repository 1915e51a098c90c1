/** The tag-based log router of tlog.js: configuration normalisation (parseStreams),
    tag lookup, `log`, `logt` with per-call de-duplication by id, and the fallback that an
    HTTP request error triggers. */
module TLog {
  import opened ConfigModel
  import opened Lookup
  import opened Sink

  const ErrorPrefix := "error writing to http: "

  // ---------------------------------------------------------------------------
  // parseStreams
  // ---------------------------------------------------------------------------

  /** The tag set a field denotes; a missing field denotes none. */
  ghost function TagSet(f: Field): set<string> {
    if Iterable(f) then set t | t in TagsOf(f) else {}
  }

  /** `arrayifyTags`: a truthy scalar becomes a one-element list; a list, a missing field
      and an empty string are left as they are. */
  function ArrayifyTags(f: Field): (r: Field)
    ensures Truthy(f) ==> r.List? && TagSet(r) == TagSet(f)
    ensures f.List? ==> r == f
    ensures f.Scalar? && f.s != "" ==> r == List([f.s])
    ensures !Truthy(f) ==> r == f
    ensures Iterable(r) <==> Iterable(f)
  {
    if !Truthy(f) || f.List? then f else List([f.s])
  }

  /** Normalising twice is normalising once. */
  lemma ArrayifyIdempotent(f: Field)
    ensures ArrayifyTags(ArrayifyTags(f)) == ArrayifyTags(f)
  {
  }

  /** An http entry's `errorTags`: missing or empty becomes `[]`, a scalar becomes a one-element list. */
  function NormaliseErrorTags(f: Field): (r: Field)
    ensures r.List?
    ensures f.List? ==> r == f
    ensures f.Scalar? && f.s != "" ==> r == List([f.s])
    ensures !Truthy(f) ==> r == List([])
  {
    if !Truthy(f) then List([]) else if f.List? then f else List([f.s])
  }

  function ParseFile(e: Entry, id: string): Entry {
    e.(id := Some(id), stream := true, tags := ArrayifyTags(e.tags))
  }

  function ParseConsole(e: Entry): Entry {
    e.(id := e.stdstream, stream := true, tags := ArrayifyTags(e.tags))
  }

  function ParseHttp(e: Entry, id: string): Entry {
    e.(id := Some(id),
       httpMethod := DefaultMethod(e.httpMethod),
       headers := DefaultHeaders(e.headers),
       errorTags := NormaliseErrorTags(e.errorTags),
       tags := ArrayifyTags(e.tags))
  }

  /** The configuration as parseStreams leaves it when no entry is fatal. */
  function Parse(reg: Registry, fileIds: seq<string>, httpIds: seq<string>): Registry
    requires |fileIds| == |reg.file| && |httpIds| == |reg.http|
  {
    Registry(
      seq(|reg.file|, i requires 0 <= i < |reg.file| => ParseFile(reg.file[i], fileIds[i])),
      seq(|reg.console|, i requires 0 <= i < |reg.console| => ParseConsole(reg.console[i])),
      seq(|reg.http|, i requires 0 <= i < |reg.http| => ParseHttp(reg.http[i], httpIds[i])))
  }

  /** The shape the router relies on after loading: every tag list can be iterated, every
      entry has an id, file and console entries hold a stream, http entries have list errorTags. */
  ghost predicate Loaded(reg: Registry) {
    && RegistryIterable(reg)
    && (forall e <- reg.file :: e.id.Some? && e.stream)
    && (forall e <- reg.console :: e.id.Some? && e.stream)
    && (forall e <- reg.http :: e.id.Some? && e.errorTags.List?)
  }

  /** What loading the module ends in: the first fatal entry of parseStreams, else the
      TypeError that the load-time lookup of the "all" targets throws on an entry without tags. */
  function LoadOutcome(reg: Registry, unopenable: set<nat>): Option<LoadError> {
    if ParseError(reg, unopenable).Some? then ParseError(reg, unopenable)
    else if !RegistryIterable(reg) then Some(TagsNotIterable)
    else None
  }

  /** What a successful parse guarantees about every entry. */
  lemma ParsedShape(reg: Registry, fileIds: seq<string>, httpIds: seq<string>, unopenable: set<nat>)
    requires |fileIds| == |reg.file| && |httpIds| == |reg.http|
    requires ParseError(reg, unopenable).None?
    ensures var p := Parse(reg, fileIds, httpIds);
      && (forall i :: 0 <= i < |p.file| ==>
            p.file[i].id == Some(fileIds[i]) && p.file[i].stream && p.file[i].tags == ArrayifyTags(reg.file[i].tags))
      && (forall i :: 0 <= i < |p.console| ==>
            && p.console[i].id == reg.console[i].stdstream && StdStreamOk(p.console[i]) && p.console[i].stream
            && p.console[i].tags == ArrayifyTags(reg.console[i].tags))
      && (forall i :: 0 <= i < |p.http| ==>
            && p.http[i].id == Some(httpIds[i])
            && Present(p.http[i].httpMethod)
            && HasContentType(p.http[i].headers)
            && p.http[i].errorTags.List?
            && p.http[i].tags == ArrayifyTags(reg.http[i].tags))
  {
  }

  /** Parsing neither creates nor removes missing tags, so the load-time lookup fails on the
      parsed configuration exactly when some raw entry has no tags; otherwise the parsed
      configuration has the shape the router relies on. */
  lemma ParsedLoaded(reg: Registry, fileIds: seq<string>, httpIds: seq<string>, unopenable: set<nat>)
    requires |fileIds| == |reg.file| && |httpIds| == |reg.http|
    requires ParseError(reg, unopenable).None?
    ensures RegistryIterable(Parse(reg, fileIds, httpIds)) <==> RegistryIterable(reg)
    ensures RegistryIterable(reg) ==> Loaded(Parse(reg, fileIds, httpIds))
  {
    var p := Parse(reg, fileIds, httpIds);
    ParsedShape(reg, fileIds, httpIds, unopenable);
    ParsedIterable(reg.file, p.file);
    ParsedIterable(reg.console, p.console);
    ParsedIterable(reg.http, p.http);
    if RegistryIterable(reg) {
      forall e <- p.file ensures e.id.Some? && e.stream {
        var i :| 0 <= i < |p.file| && p.file[i] == e;
      }
      forall e <- p.console ensures e.id.Some? && e.stream {
        var i :| 0 <= i < |p.console| && p.console[i] == e;
      }
      forall e <- p.http ensures e.id.Some? && e.errorTags.List? {
        var i :| 0 <= i < |p.http| && p.http[i] == e;
      }
    }
  }

  lemma ParsedIterable(raw: seq<Entry>, parsed: seq<Entry>)
    requires |raw| == |parsed|
    requires forall i :: 0 <= i < |raw| ==> parsed[i].tags == ArrayifyTags(raw[i].tags)
    ensures AllIterable(parsed) <==> AllIterable(raw)
  {
    if AllIterable(raw) {
      forall e <- parsed ensures Iterable(e.tags) {
        var i :| 0 <= i < |parsed| && parsed[i] == e;
        assert raw[i] in raw;
      }
    }
    if AllIterable(parsed) {
      forall e <- raw ensures Iterable(e.tags) {
        var i :| 0 <= i < |raw| && raw[i] == e;
        assert parsed[i] in parsed;
      }
    }
  }

  /** The file loop of parseStreams: gives each entry an id and a stream and normalises its
      tags, stopping at the first entry whose stream cannot be opened. */
  method ParseFiles(config: Config, fileIds: seq<string>, unopenable: set<nat>) returns (bad: Option<nat>)
    requires |fileIds| == |config.file|
    modifies config
    ensures config.console == old(config.console) && config.http == old(config.http)
    ensures bad.Some? ==>
      bad.value < |old(config.file)| && bad.value in unopenable && forall j :: 0 <= j < bad.value ==> j !in unopenable
    ensures bad.None? ==>
      && (forall j :: 0 <= j < |old(config.file)| ==> j !in unopenable)
      && |config.file| == |old(config.file)|
      && forall j :: 0 <= j < |config.file| ==> config.file[j] == ParseFile(old(config.file[j]), fileIds[j])
  {
    var i := 0;
    while i < |config.file|
      invariant 0 <= i <= |config.file| == |old(config.file)|
      invariant config.console == old(config.console) && config.http == old(config.http)
      invariant forall j :: 0 <= j < i ==> j !in unopenable && config.file[j] == ParseFile(old(config.file[j]), fileIds[j])
      invariant forall j :: i <= j < |config.file| ==> config.file[j] == old(config.file[j])
    {
      if i in unopenable {
        return Some(i);
      }
      config.file := config.file[i := ParseFile(config.file[i], fileIds[i])];
      i := i + 1;
    }
    return None;
  }

  /** The console loop of parseStreams: the id and stream come from `stdstream`, which must
      name a standard stream. */
  method ParseConsoles(config: Config) returns (bad: Option<nat>)
    modifies config
    ensures config.file == old(config.file) && config.http == old(config.http)
    ensures bad.Some? ==>
      && bad.value < |old(config.console)| && !StdStreamOk(old(config.console[bad.value]))
      && forall j :: 0 <= j < bad.value ==> StdStreamOk(old(config.console[j]))
    ensures bad.None? ==>
      && (forall j :: 0 <= j < |old(config.console)| ==> StdStreamOk(old(config.console[j])))
      && |config.console| == |old(config.console)|
      && forall j :: 0 <= j < |config.console| ==> config.console[j] == ParseConsole(old(config.console[j]))
  {
    var i := 0;
    while i < |config.console|
      invariant 0 <= i <= |config.console| == |old(config.console)|
      invariant config.file == old(config.file) && config.http == old(config.http)
      invariant forall j :: 0 <= j < i ==> StdStreamOk(old(config.console[j])) && config.console[j] == ParseConsole(old(config.console[j]))
      invariant forall j :: i <= j < |config.console| ==> config.console[j] == old(config.console[j])
    {
      var tty := config.console[i];
      if !(tty.stdstream == Some("stdout") || tty.stdstream == Some("stderr") || tty.stdstream == Some("stdin")) {
        return Some(i);
      }
      config.console := config.console[i := ParseConsole(tty)];
      i := i + 1;
    }
    return None;
  }

  /** The http loop of parseStreams: id, method, headers and errorTags defaults and tag
      normalisation, stopping at the first entry without a url. */
  method ParseHttps(config: Config, httpIds: seq<string>) returns (bad: Option<nat>)
    requires |httpIds| == |config.http|
    modifies config
    ensures config.file == old(config.file) && config.console == old(config.console)
    ensures bad.Some? ==>
      && bad.value < |old(config.http)| && !HasUrl(old(config.http[bad.value]))
      && forall j :: 0 <= j < bad.value ==> HasUrl(old(config.http[j]))
    ensures bad.None? ==>
      && (forall j :: 0 <= j < |old(config.http)| ==> HasUrl(old(config.http[j])))
      && |config.http| == |old(config.http)|
      && forall j :: 0 <= j < |config.http| ==> config.http[j] == ParseHttp(old(config.http[j]), httpIds[j])
  {
    var i := 0;
    while i < |config.http|
      invariant 0 <= i <= |config.http| == |old(config.http)|
      invariant config.file == old(config.file) && config.console == old(config.console)
      invariant forall j :: 0 <= j < i ==> HasUrl(old(config.http[j])) && config.http[j] == ParseHttp(old(config.http[j]), httpIds[j])
      invariant forall j :: i <= j < |config.http| ==> config.http[j] == old(config.http[j])
    {
      var h := config.http[i];
      if !Present(h.url) {
        return Some(i);
      }
      config.http := config.http[i := ParseHttp(h, httpIds[i])];
      i := i + 1;
    }
    return None;
  }

  /** `parseStreams(config)`: normalises the configuration object in place, entry by entry,
      stopping at the first fatal entry (`process.exit(1)` in the source). */
  method ParseStreams(config: Config, fileIds: seq<string>, httpIds: seq<string>, unopenable: set<nat>)
    returns (err: Option<LoadError>)
    requires |fileIds| == |config.file| && |httpIds| == |config.http|
    modifies config
    ensures err == ParseError(old(config.Value()), unopenable)
    ensures err.None? ==> config.Value() == Parse(old(config.Value()), fileIds, httpIds)
  {
    ghost var raw := config.Value();
    var bad := ParseFiles(config, fileIds, unopenable);
    if bad.Some? {
      ParseErrorAt(raw, unopenable, bad.value);
      return Some(OpenFailed(bad.value));
    }
    bad := ParseConsoles(config);
    if bad.Some? {
      ParseErrorAt(raw, unopenable, bad.value);
      return Some(BadStdStream(bad.value));
    }
    bad := ParseHttps(config, httpIds);
    if bad.Some? {
      ParseErrorAt(raw, unopenable, bad.value);
      return Some(MissingUrl(bad.value));
    }
    ghost var p := Parse(raw, fileIds, httpIds);
    assert config.file == p.file;
    assert config.console == p.console;
    assert config.http == p.http;
    return None;
  }

  // ---------------------------------------------------------------------------
  // Lookup
  // ---------------------------------------------------------------------------

  /** `getTargetsOfTypeAndTags(tags, type)`: the loop over the entries of one kind, each
      handing its tag list to the two inner loops. */
  method GetTargetsOfTypeAndTags(targets: seq<Entry>, tags: seq<string>, kind: Kind) returns (out: seq<Copy>)
    requires AllIterable(targets)
    ensures out == Matches(targets, tags, kind)
  {
    out := [];
    var i := 0;
    while i < |targets|
      invariant 0 <= i <= |targets|
      invariant AllIterable(targets[..i])
      invariant out == Matches(targets[..i], tags, kind)
    {
      var target := targets[i];
      out := PushMatches(out, Copy(kind, target), Items(target.tags), tags);
      MatchesStep(targets, i, tags, kind);
      i := i + 1;
    }
    assert targets[..i] == targets;
  }

  /** `getTargetsByTags(tags)`: file matches, then console matches, then http matches. */
  method GetTargetsByTags(reg: Registry, tags: seq<string>) returns (out: seq<Copy>)
    requires RegistryIterable(reg)
    ensures out == Resolve(reg, tags)
  {
    var files := GetTargetsOfTypeAndTags(reg.file, tags, File);
    var consoles := GetTargetsOfTypeAndTags(reg.console, tags, Console);
    var https := GetTargetsOfTypeAndTags(reg.http, tags, Http);
    out := files + consoles + https;
  }

  // ---------------------------------------------------------------------------
  // De-duplication by id
  // ---------------------------------------------------------------------------

  /** The key `usedTargets[target.id]` is stored under. */
  function Key(c: Copy): string {
    match c.entry.id
    case Some(s) => s
    case None => "undefined"
  }

  /** The keys some copies are stored under. */
  function Keys(cs: seq<Copy>): set<string> {
    if cs == [] then {} else Keys(cs[..|cs| - 1]) + {Key(cs[|cs| - 1])}
  }

  /** A key is among the keys exactly when some copy carries it. */
  lemma {:induction false} KeysMember(cs: seq<Copy>, k: string)
    ensures k in Keys(cs) <==> exists i :: 0 <= i < |cs| && Key(cs[i]) == k
  {
    if cs != [] {
      var init := cs[..|cs| - 1];
      KeysMember(init, k);
      if k in Keys(init) {
        var i :| 0 <= i < |init| && Key(init[i]) == k;
        assert cs[i] == init[i];
      }
      if exists i :: 0 <= i < |cs| && Key(cs[i]) == k {
        var i :| 0 <= i < |cs| && Key(cs[i]) == k;
        if i < |init| {
          assert init[i] == cs[i];
        }
      }
    }
  }

  lemma {:induction false} KeysAppend(a: seq<Copy>, b: seq<Copy>)
    ensures Keys(a + b) == Keys(a) + Keys(b)
  {
    if b == [] {
      assert a + b == a;
    } else {
      var init := b[..|b| - 1];
      assert (a + b)[..|a + b| - 1] == a + init;
      assert (a + b)[|a + b| - 1] == b[|b| - 1];
      KeysAppend(a, init);
    }
  }

  ghost predicate DistinctKeys(cs: seq<Copy>) {
    forall i, j :: 0 <= i < j < |cs| ==> Key(cs[i]) != Key(cs[j])
  }

  /** Number of copies carrying key k. */
  function Occurrences(cs: seq<Copy>, k: string): nat {
    if cs == [] then 0
    else Occurrences(cs[..|cs| - 1], k) + (if Key(cs[|cs| - 1]) == k then 1 else 0)
  }

  /** What a loop that skips every copy whose key is already used, and marks the keys it
      passes, lets through: the first copy of each key not in `used`, in order. */
  function FirstById(cs: seq<Copy>, used: set<string>): seq<Copy> {
    if cs == [] then []
    else
      var init, c := cs[..|cs| - 1], cs[|cs| - 1];
      var r := FirstById(init, used);
      if Key(c) in used || Key(c) in Keys(init) then r else r + [c]
  }

  /** The selection keeps only copies of the input, covers every unused key, and never
      repeats a key. */
  lemma {:induction false} FirstByIdSound(cs: seq<Copy>, used: set<string>)
    ensures forall c <- FirstById(cs, used) :: c in cs
    ensures Keys(FirstById(cs, used)) == Keys(cs) - used
    ensures DistinctKeys(FirstById(cs, used))
  {
    if cs != [] {
      var init, c := cs[..|cs| - 1], cs[|cs| - 1];
      assert cs == init + [c];
      assert Keys(cs) == Keys(init) + {Key(c)};
      FirstByIdSound(init, used);
      var r := FirstById(init, used);
      if !(Key(c) in used || Key(c) in Keys(init)) {
        assert (r + [c])[..|r|] == r;
        forall j | 0 <= j < |r| ensures Key(r[j]) != Key(c) {
          KeysMember(r, Key(r[j]));
        }
      }
    }
  }

  /** A de-duplicating pass keeps the first copy of each key: every selected copy is the
      first in the input with its key, and the first copy of every unused key is selected. */
  lemma {:induction false} FirstByIdFirst(cs: seq<Copy>, used: set<string>)
    ensures forall c <- FirstById(cs, used) :: exists i :: 0 <= i < |cs| && cs[i] == c && Key(c) !in Keys(cs[..i])
    ensures forall i :: 0 <= i < |cs| && Key(cs[i]) !in used && Key(cs[i]) !in Keys(cs[..i]) ==> cs[i] in FirstById(cs, used)
  {
    if cs != [] {
      var init, c := cs[..|cs| - 1], cs[|cs| - 1];
      FirstByIdFirst(init, used);
      var r := FirstById(init, used);
      forall x <- FirstById(cs, used)
        ensures exists i :: 0 <= i < |cs| && cs[i] == x && Key(x) !in Keys(cs[..i])
      {
        if x in r {
          var i :| 0 <= i < |init| && init[i] == x && Key(x) !in Keys(init[..i]);
          assert cs[i] == x && cs[..i] == init[..i];
        } else {
          assert cs[|init|] == x && cs[..|init|] == init;
        }
      }
      forall i | 0 <= i < |cs| && Key(cs[i]) !in used && Key(cs[i]) !in Keys(cs[..i])
        ensures cs[i] in FirstById(cs, used)
      {
        if i < |init| {
          assert cs[i] == init[i] && cs[..i] == init[..i];
        } else {
          assert cs[..i] == init;
        }
      }
    }
  }

  /** A de-duplicating pass keeps its input's order, so a list in file, console, http order
      stays in that order. */
  lemma {:induction false} FirstByIdSorted(cs: seq<Copy>, used: set<string>)
    requires RankSorted(cs)
    ensures RankSorted(FirstById(cs, used))
  {
    if cs != [] {
      var init, c := cs[..|cs| - 1], cs[|cs| - 1];
      assert RankSorted(init) by {
        forall i, j | 0 <= i < j < |init| ensures Rank(init[i].kind) <= Rank(init[j].kind) {
          assert init[i] == cs[i] && init[j] == cs[j];
        }
      }
      FirstByIdSorted(init, used);
      FirstByIdSound(init, used);
      var r := FirstById(init, used);
      forall x <- r ensures Rank(x.kind) <= Rank(c.kind) {
        var i :| 0 <= i < |init| && init[i] == x;
        assert cs[i] == x;
      }
      SortedSnoc(r, c);
    }
  }

  lemma SortedSnoc(cs: seq<Copy>, c: Copy)
    requires RankSorted(cs) && forall x <- cs :: Rank(x.kind) <= Rank(c.kind)
    ensures RankSorted(cs + [c])
  {
    forall i, j | 0 <= i < j < |cs + [c]| ensures Rank((cs + [c])[i].kind) <= Rank((cs + [c])[j].kind) {
      assert (cs + [c])[i] == cs[i];
      if j < |cs| {
        assert (cs + [c])[j] == cs[j];
      } else {
        assert cs[i] in cs;
      }
    }
  }

  /** Keys that never repeat occur exactly once. */
  lemma {:induction false} DistinctKeysOnce(cs: seq<Copy>, k: string)
    requires DistinctKeys(cs)
    ensures Occurrences(cs, k) == if k in Keys(cs) then 1 else 0
  {
    if cs != [] {
      var init, c := cs[..|cs| - 1], cs[|cs| - 1];
      assert cs == init + [c];
      assert Keys(cs) == Keys(init) + {Key(c)};
      DistinctKeysOnce(init, k);
      NewKeyAtEnd(cs);
    }
  }

  /** In a list with distinct keys, the last key does not occur before it. */
  lemma NewKeyAtEnd(cs: seq<Copy>)
    requires cs != [] && DistinctKeys(cs)
    ensures Key(cs[|cs| - 1]) !in Keys(cs[..|cs| - 1])
  {
    var init, c := cs[..|cs| - 1], cs[|cs| - 1];
    KeysMember(init, Key(c));
    forall i | 0 <= i < |init| ensures Key(init[i]) != Key(c) {
      assert cs[i] == init[i];
    }
  }

  /** Two passes that share one `usedTargets` dictionary select what one pass over the
      concatenation selects. */
  lemma {:induction false} FirstByIdAppend(a: seq<Copy>, b: seq<Copy>, used: set<string>)
    ensures FirstById(a + b, used) == FirstById(a, used) + FirstById(b, used + Keys(a))
  {
    if b == [] {
      assert a + b == a;
    } else {
      var init, c := b[..|b| - 1], b[|b| - 1];
      assert (a + b)[..|a + b| - 1] == a + init;
      assert (a + b)[|a + b| - 1] == c;
      KeysAppend(a, init);
      FirstByIdAppend(a, init, used);
    }
  }

  /** A list whose keys are distinct and unused passes through unchanged. */
  lemma {:induction false} FirstByIdDistinct(cs: seq<Copy>, used: set<string>)
    requires DistinctKeys(cs) && Keys(cs) !! used
    ensures FirstById(cs, used) == cs
  {
    if cs != [] {
      var init, c := cs[..|cs| - 1], cs[|cs| - 1];
      assert cs == init + [c];
      assert Keys(cs) == Keys(init) + {Key(c)};
      FirstByIdDistinct(init, used);
      NewKeyAtEnd(cs);
    }
  }

  /** One loop step: the next copy is let through exactly when its key is neither in `used`
      nor among the keys already passed. */
  lemma FirstByIdStep(cs: seq<Copy>, i: nat, used: set<string>)
    requires i < |cs|
    ensures FirstById(cs[..i + 1], used)
         == FirstById(cs[..i], used) + (if Key(cs[i]) in used || Key(cs[i]) in Keys(cs[..i]) then [] else [cs[i]])
    ensures Keys(cs[..i + 1]) == Keys(cs[..i]) + {Key(cs[i])}
  {
    assert cs[..i + 1][..i] == cs[..i];
    assert cs[..i + 1] == cs[..i] + [cs[i]];
  }

  /** One step of a loop that skips the copies whose key is in the dictionary and marks the
      keys of the others: the selection and the dictionary's keys move on together. */
  lemma UnusedStep(cs: seq<Copy>, i: nat, used: set<string>, marked: set<string>, sent: seq<Copy>)
    requires i < |cs|
    requires sent == FirstById(cs[..i], used) && marked == used + Keys(cs[..i])
    ensures Key(cs[i]) in marked ==> FirstById(cs[..i + 1], used) == sent && marked == used + Keys(cs[..i + 1])
    ensures Key(cs[i]) !in marked ==>
      FirstById(cs[..i + 1], used) == sent + [cs[i]] && marked + {Key(cs[i])} == used + Keys(cs[..i + 1])
  {
    FirstByIdStep(cs, i, used);
  }

  // ---------------------------------------------------------------------------
  // What log, logt and the error handler select
  // ---------------------------------------------------------------------------

  /** `logt(tags, ...)`: the tag-matched copies, then the "all" copies, each key once. */
  function LogtTargets(reg: Registry, q: seq<string>): seq<Copy>
    requires RegistryIterable(reg)
  {
    FirstById(Resolve(reg, q) + Resolve(reg, [AlwaysTag]), {})
  }

  /** The request-error handler: the copies matching the failing copy's errorTags, each key
      once, never the failing copy's own key. */
  function FallbackTargets(reg: Registry, failing: Copy): seq<Copy>
    requires RegistryIterable(reg) && Iterable(failing.entry.errorTags)
  {
    FirstById(Resolve(reg, Items(failing.entry.errorTags)), {Key(failing)})
  }

  /** The writes the handler issues: the original arguments behind the error prefix. */
  function FallbackWrites(reg: Registry, request: Write): seq<Write>
    requires RegistryIterable(reg) && Iterable(request.to.entry.errorTags)
  {
    Writes(FallbackTargets(reg, request.to), [ErrorPrefix] + request.args)
  }

  /** Exactly once per call: every key among the tag-matched and the "all" copies is
      selected once, and no other key is. */
  lemma LogtExactlyOnce(reg: Registry, q: seq<string>, k: string)
    requires RegistryIterable(reg)
    ensures Occurrences(LogtTargets(reg, q), k)
         == if k in Keys(Resolve(reg, q)) || k in Keys(Resolve(reg, [AlwaysTag])) then 1 else 0
  {
    var m, a := Resolve(reg, q), Resolve(reg, [AlwaysTag]);
    KeysAppend(m, a);
    FirstByIdSound(m + a, {});
    DistinctKeysOnce(LogtTargets(reg, q), k);
  }

  /** Matched copies come first; then the "all" copies whose key the matched pass did not use. */
  lemma LogtMatchedFirst(reg: Registry, q: seq<string>)
    requires RegistryIterable(reg)
    ensures LogtTargets(reg, q)
         == FirstById(Resolve(reg, q), {}) + FirstById(Resolve(reg, [AlwaysTag]), Keys(Resolve(reg, q)))
  {
    FirstByIdAppend(Resolve(reg, q), Resolve(reg, [AlwaysTag]), {});
    assert {} + Keys(Resolve(reg, q)) == Keys(Resolve(reg, q));
  }

  /** Each pass of `logt` writes in file, console, http order: the matched copies in that order,
      then the remaining "all" copies in that order. */
  lemma LogtPassesOrdered(reg: Registry, q: seq<string>)
    requires RegistryIterable(reg)
    ensures var m, a := FirstById(Resolve(reg, q), {}), FirstById(Resolve(reg, [AlwaysTag]), Keys(Resolve(reg, q)));
      LogtTargets(reg, q) == m + a && RankSorted(m) && RankSorted(a)
  {
    LogtMatchedFirst(reg, q);
    ResolveOrdered(reg, q);
    ResolveOrdered(reg, [AlwaysTag]);
    FirstByIdSorted(Resolve(reg, q), {});
    FirstByIdSorted(Resolve(reg, [AlwaysTag]), Keys(Resolve(reg, q)));
  }

  /** When no copy matches the tags and the "all" copies have distinct keys, `logt`
      selects exactly what `log` writes to. */
  lemma LogtWithoutMatchesIsLog(reg: Registry, q: seq<string>)
    requires RegistryIterable(reg)
    requires Resolve(reg, q) == [] && DistinctKeys(Resolve(reg, [AlwaysTag]))
    ensures LogtTargets(reg, q) == Resolve(reg, [AlwaysTag])
  {
    assert Resolve(reg, q) + Resolve(reg, [AlwaysTag]) == Resolve(reg, [AlwaysTag]);
    FirstByIdDistinct(Resolve(reg, [AlwaysTag]), {});
  }

  /** Fallback exclusion: each key resolved from errorTags other than the failing copy's
      own gets one write, and the failing copy's key gets none. */
  lemma FallbackExactlyOnce(reg: Registry, failing: Copy, k: string)
    requires RegistryIterable(reg) && Iterable(failing.entry.errorTags)
    ensures Occurrences(FallbackTargets(reg, failing), k)
         == if k in Keys(Resolve(reg, Items(failing.entry.errorTags))) && k != Key(failing) then 1 else 0
    ensures Occurrences(FallbackTargets(reg, failing), Key(failing)) == 0
  {
    FirstByIdSound(Resolve(reg, Items(failing.entry.errorTags)), {Key(failing)});
    DistinctKeysOnce(FallbackTargets(reg, failing), k);
    DistinctKeysOnce(FallbackTargets(reg, failing), Key(failing));
  }

  /** Fallback is not limited to one hop: every http copy without a stream that the handler
      selects gets a request of its own, which can fail and run the handler again. */
  lemma FallbackIssuesRequests(reg: Registry, request: Write, c: Copy)
    requires RegistryIterable(reg) && Iterable(request.to.entry.errorTags)
    requires c in FallbackTargets(reg, request.to) && c.kind == Http && !c.entry.stream
    ensures var args := [ErrorPrefix] + request.args;
      Write(c, Request, args) in Pending(FallbackTargets(reg, request.to), args)
  {
    PendingHas(FallbackTargets(reg, request.to), c, [ErrorPrefix] + request.args);
  }

  /** On a loaded configuration every copy `logt` selects is written to, once, in order: the
      writes of `logt` are one per selected copy. */
  lemma LogtWritesOnePerTarget(reg: Registry, q: seq<string>, args: seq<string>)
    requires Loaded(reg)
    ensures |Writes(LogtTargets(reg, q), args)| == |LogtTargets(reg, q)|
    ensures forall i :: 0 <= i < |LogtTargets(reg, q)| ==> Writes(LogtTargets(reg, q), args)[i].to == LogtTargets(reg, q)[i]
  {
    var m, a := Resolve(reg, q), Resolve(reg, [AlwaysTag]);
    ResolveSound(reg, q);
    ResolveSound(reg, [AlwaysTag]);
    FirstByIdSound(m + a, {});
    LoadedDeliverable(reg, LogtTargets(reg, q));
    WritesOnePerCopy(LogtTargets(reg, q), args);
  }

  /** On a loaded configuration every copy the error handler selects is written to, once, in
      order. */
  lemma FallbackWritesOnePerTarget(reg: Registry, request: Write)
    requires Loaded(reg) && Iterable(request.to.entry.errorTags)
    ensures var ts := FallbackTargets(reg, request.to);
      |FallbackWrites(reg, request)| == |ts| && forall i :: 0 <= i < |ts| ==> FallbackWrites(reg, request)[i].to == ts[i]
  {
    var q := Items(request.to.entry.errorTags);
    ResolveSound(reg, q);
    FirstByIdSound(Resolve(reg, q), {Key(request.to)});
    LoadedDeliverable(reg, FallbackTargets(reg, request.to));
    WritesOnePerCopy(FallbackTargets(reg, request.to), [ErrorPrefix] + request.args);
  }

  /** Every entry of a loaded registry has an id. */
  lemma LoadedHasId(reg: Registry, c: Copy)
    requires Loaded(reg) && FromRegistry(c, reg)
    ensures c.entry.id.Some?
  {
    assert c.entry in reg.Of(c.kind);
  }

  /** Between copies that carry ids, the dictionary key tells ids apart. */
  lemma SameKeySameId(c: Copy, d: Copy)
    requires c.entry.id.Some? && d.entry.id.Some?
    ensures Key(c) == Key(d) <==> c.entry.id == d.entry.id
  {
  }

  /** Every copy the lookup returns from a loaded registry is written to: streams for file and
      console copies, a request for http copies. */
  lemma LoadedDeliverable(reg: Registry, cs: seq<Copy>)
    requires Loaded(reg)
    requires forall c <- cs :: FromRegistry(c, reg)
    ensures forall c <- cs :: Deliverable(c)
  {
    forall c <- cs ensures Deliverable(c) {
      if c.kind != Http {
        assert c.entry in reg.Of(c.kind);
      }
    }
  }

  // ---------------------------------------------------------------------------
  // The router
  // ---------------------------------------------------------------------------

  /** The loaded module: its parsed configuration, the precomputed "all" copies, every write
      issued so far and the HTTP requests whose outcome is still pending. The router only reads
      the configuration once it is parsed. */
  class Logger {
    const config: Registry
    const alwaysTargets: seq<Copy>
    var trace: seq<Write>
    var inFlight: seq<Write>

    /** What holds from loading on: the configuration is loaded and alwaysTargets is its "all" lookup. */
    ghost predicate Wired() {
      Loaded(config) && alwaysTargets == Resolve(config, [AlwaysTag])
    }

    /** Every "all" copy and every pending request is a copy of the configuration, and every
        pending request is an http copy. */
    ghost predicate Valid()
      reads this
    {
      && (forall c <- alwaysTargets :: FromRegistry(c, config))
      && forall w <- inFlight :: w.channel == Request && w.to.kind == Http && FromRegistry(w.to, config)
    }

    /** `const alwaysTargets = getTargetsByTags(["all"])`, once the configuration is parsed. */
    constructor (config: Registry)
      requires Loaded(config)
      ensures Wired() && Valid()
      ensures this.config == config && trace == [] && inFlight == []
    {
      this.config := config;
      var always := GetTargetsByTags(config, [AlwaysTag]);
      ResolveSound(config, [AlwaysTag]);
      alwaysTargets := always;
      trace := [];
      inFlight := [];
    }

    /** `write(target, ...args)` */
    method WriteTo(target: Copy, args: seq<string>)
      requires Valid() && FromRegistry(target, config)
      modifies this
      ensures Valid()
      ensures trace == old(trace) + WriteOf(target, args)
      ensures inFlight == old(inFlight) + Requests(WriteOf(target, args))
    {
      if target.entry.stream {
        trace := trace + [Write(target, Stream, args)];
      } else if target.kind == Http {
        var request := Write(target, Request, args);
        trace := trace + [request];
        inFlight := inFlight + [request];
        assert Requests([request]) == [request];
      }
    }

    /** `log(...args)`: one write per entry of alwaysTargets, in order, with no de-duplication. */
    method Log(args: seq<string>)
      requires Valid()
      modifies this
      ensures Valid()
      ensures trace == old(trace) + Writes(alwaysTargets, args)
      ensures inFlight == old(inFlight) + Pending(alwaysTargets, args)
    {
      for i := 0 to |alwaysTargets|
        invariant Valid()
        invariant trace == old(trace) + Writes(alwaysTargets[..i], args)
        invariant inFlight == old(inFlight) + Pending(alwaysTargets[..i], args)
      {
        assert alwaysTargets[..i + 1] == alwaysTargets[..i] + [alwaysTargets[i]];
        WritesSnoc(old(trace), alwaysTargets[..i], alwaysTargets[i], args);
        PendingSnoc(old(inFlight), alwaysTargets[..i], alwaysTargets[i], args);
        WriteTo(alwaysTargets[i], args);
      }
      assert alwaysTargets[..|alwaysTargets|] == alwaysTargets;
    }

    /** One de-duplicating loop of `logt`: writes to each copy whose id `usedTargets` does not
        hold yet, in order, and marks the id. `logt` runs it twice with one dictionary, which
        only ever maps ids to true and so is modelled by the set of ids it holds. */
    method WriteUnused(targets: seq<Copy>, usedTargets: set<string>, args: seq<string>)
      returns (used: set<string>)
      requires Valid() && forall c <- targets :: FromRegistry(c, config)
      modifies this
      ensures Valid()
      ensures used == usedTargets + Keys(targets)
      ensures trace == old(trace) + Writes(FirstById(targets, usedTargets), args)
      ensures inFlight == old(inFlight) + Pending(FirstById(targets, usedTargets), args)
    {
      used := usedTargets;
      ghost var sent: seq<Copy> := [];
      var i := 0;
      while i < |targets|
        invariant Valid()
        invariant 0 <= i <= |targets|
        invariant sent == FirstById(targets[..i], usedTargets)
        invariant used == usedTargets + Keys(targets[..i])
        invariant trace == old(trace) + Writes(sent, args)
        invariant inFlight == old(inFlight) + Pending(sent, args)
      {
        var target := targets[i];
        UnusedStep(targets, i, usedTargets, used, sent);
        if Key(target) in used {
          i := i + 1;
          continue;
        }
        WritesSnoc(old(trace), sent, target, args);
        PendingSnoc(old(inFlight), sent, target, args);
        WriteTo(target, args);
        used := used + {Key(target)};
        sent := sent + [target];
        i := i + 1;
      }
      assert targets[..i] == targets;
    }

    /** `logt(tags, ...args)`: the tag-matched copies, then the "all" copies, skipping every
        copy whose id this call has already written to. */
    method Logt(tags: TagArg, args: seq<string>)
      requires Wired() && Valid()
      modifies this
      ensures Valid()
      ensures trace == old(trace) + Writes(LogtTargets(config, QueryOf(tags)), args)
      ensures inFlight == old(inFlight) + Pending(LogtTargets(config, QueryOf(tags)), args)
    {
      var q := QueryOf(tags);
      var usedTargets: set<string> := {};
      var targets := GetTargetsByTags(config, q);
      ResolveSound(config, q);
      usedTargets := WriteUnused(targets, usedTargets, args);
      ghost var m := FirstById(targets, {});
      assert usedTargets == Keys(targets);
      usedTargets := WriteUnused(alwaysTargets, usedTargets, args);
      ghost var a := FirstById(alwaysTargets, Keys(targets));
      LogtMatchedFirst(config, q);
      WritesSplit(old(trace), LogtTargets(config, q), m, a, args);
      PendingSplit(old(inFlight), LogtTargets(config, q), m, a, args);
    }

    /** The loop of the request-error handler: marks each copy's id on first sight, and writes
        to it unless its id is the failing target's. */
    method WriteFallback(targets: seq<Copy>, options: Copy, args: seq<string>)
      requires Valid() && forall c <- targets :: FromRegistry(c, config) && c.entry.id.Some?
      requires options.entry.id.Some?
      modifies this
      ensures Valid()
      ensures trace == old(trace) + Writes(FirstById(targets, {Key(options)}), args)
      ensures inFlight == old(inFlight) + Pending(FirstById(targets, {Key(options)}), args)
    {
      var usedTargets: set<string> := {};
      ghost var sent: seq<Copy> := [];
      var i := 0;
      while i < |targets|
        invariant Valid()
        invariant 0 <= i <= |targets|
        invariant sent == FirstById(targets[..i], {Key(options)})
        invariant usedTargets == Keys(targets[..i])
        invariant trace == old(trace) + Writes(sent, args)
        invariant inFlight == old(inFlight) + Pending(sent, args)
      {
        var target := targets[i];
        FirstByIdStep(targets, i, {Key(options)});
        if Key(target) in usedTargets {
          assert FirstById(targets[..i + 1], {Key(options)}) == sent;
          i := i + 1;
          continue;
        }
        usedTargets := usedTargets + {Key(target)};
        SameKeySameId(target, options);
        if target.entry.id != options.entry.id {
          assert FirstById(targets[..i + 1], {Key(options)}) == sent + [target];
          WritesSnoc(old(trace), sent, target, args);
          PendingSnoc(old(inFlight), sent, target, args);
          WriteTo(target, args);
          sent := sent + [target];
        } else {
          assert FirstById(targets[..i + 1], {Key(options)}) == sent;
        }
        i := i + 1;
      }
      assert targets[..i] == targets;
    }

    /** The `request.on("error")` handler of the k-th pending request: the request is settled,
        and every copy matching its errorTags, once per id and never the failing target itself,
        gets the arguments behind the error prefix through `write` (so an http fallback target
        issues a request of its own, with a handler of its own). */
    method OnRequestError(k: nat)
      requires Wired() && Valid() && k < |inFlight|
      modifies this
      ensures Valid()
      ensures trace == old(trace) + FallbackWrites(config, old(inFlight[k]))
      ensures inFlight == old(inFlight[..k] + inFlight[k + 1..])
                          + Pending(FallbackTargets(config, old(inFlight[k]).to), [ErrorPrefix] + old(inFlight[k]).args)
    {
      var request := inFlight[k];
      assert request in inFlight;
      inFlight := inFlight[..k] + inFlight[k + 1..];
      assert forall w <- inFlight :: w in old(inFlight);
      var options := request.to;
      LoadedHasId(config, options);
      var targets := GetTargetsByTags(config, Items(options.entry.errorTags));
      ResolveSound(config, Items(options.entry.errorTags));
      forall c <- targets ensures c.entry.id.Some? {
        LoadedHasId(config, c);
      }
      WriteFallback(targets, options, [ErrorPrefix] + request.args);
    }
  }

  /** Module load: parseStreams on the configuration, then the load-time lookup of the
      "all" copies, which throws when an entry has no tags. */
  method Load(config: Config, fileIds: seq<string>, httpIds: seq<string>, unopenable: set<nat>)
    returns (logger: Logger?, err: Option<LoadError>)
    requires |fileIds| == |config.file| && |httpIds| == |config.http|
    modifies config
    ensures err == LoadOutcome(old(config.Value()), unopenable)
    ensures err.None? ==> config.Value() == Parse(old(config.Value()), fileIds, httpIds)
    ensures (logger != null) == err.None?
    ensures logger != null ==>
      fresh(logger) && logger.Wired() && logger.Valid() && logger.config == config.Value() && logger.trace == [] && logger.inFlight == []
  {
    ghost var raw := config.Value();
    err := ParseStreams(config, fileIds, httpIds, unopenable);
    if err.Some? {
      return null, err;
    }
    ParsedLoaded(raw, fileIds, httpIds, unopenable);
    if !RegistryIterable(config.Value()) {
      return null, Some(TagsNotIterable);
    }
    logger := new Logger(config.Value());
  }
}
