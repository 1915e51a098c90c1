/** The configuration objects both loggers read: one entry per target, grouped by kind,
    with the dynamically shaped fields a configuration author may write. */
module ConfigModel {

  datatype Option<T> = None | Some(value: T)

  /** A configuration value that may be a single string, a list of strings, or missing. */
  datatype Field = Absent | Scalar(s: string) | List(items: seq<string>)

  /** JavaScript truthiness of a field: missing and the empty string are falsy, any array is truthy. */
  predicate Truthy(f: Field) {
    match f
    case Absent => false
    case Scalar(s) => s != ""
    case List(_) => true
  }

  /** Truthiness of an optional string property (`!h.url`, `!h.method`). */
  predicate Present(o: Option<string>) {
    o.Some? && o.value != ""
  }

  /** Whether `f.length` and `f[j]` can be read: everything but a missing field. */
  predicate Iterable(f: Field) {
    !f.Absent?
  }

  /** What a loop over `f.length` / `f[j]` sees: the list itself, or the characters of a string. */
  function Items(f: Field): (r: seq<string>)
    requires Iterable(f)
    ensures f.List? ==> r == f.items
    ensures f.Scalar? ==> |r| == |f.s| && forall j :: 0 <= j < |r| ==> r[j] == [f.s[j]]
  {
    match f
    case List(items) => items
    case Scalar(s) => seq(|s|, j requires 0 <= j < |s| => [s[j]])
  }

  /** The tags a field holds, a scalar being one tag. */
  function TagsOf(f: Field): seq<string>
    requires Iterable(f)
  {
    if f.Scalar? then [f.s] else f.items
  }

  /** The three target kinds, in the order the lookups concatenate them. */
  datatype Kind = File | Console | Http

  /** One configuration object. `id` and `stream` are filled in by parseStreams;
      `stream` records whether a write stream handle is attached. */
  datatype Entry = Entry(
    tags: Field,
    errorTags: Field,
    stdstream: Option<string>,
    url: Option<string>,
    httpMethod: Option<string>,
    headers: Option<map<string, string>>,
    id: Option<string>,
    stream: bool)

  /** The configuration object's three arrays. */
  datatype Registry = Registry(file: seq<Entry>, console: seq<Entry>, http: seq<Entry>) {
    /** `config[type]` */
    function Of(kind: Kind): seq<Entry> {
      match kind
      case File => file
      case Console => console
      case Http => http
    }

    /** The registry with the array of one kind replaced. */
    function With(kind: Kind, es: seq<Entry>): (r: Registry)
      ensures r.Of(kind) == es
      ensures forall k :: k != kind ==> r.Of(k) == Of(k)
    {
      match kind
      case File => this.(file := es)
      case Console => this.(console := es)
      case Http => this.(http := es)
    }

    /** Replacing an array twice keeps the second replacement. */
    lemma WithTwice(kind: Kind, a: seq<Entry>, b: seq<Entry>)
      ensures With(kind, a).With(kind, b) == With(kind, b)
    {
    }
  }

  /** The configuration object, which parseStreams (and, in log4jesus, the lookup) change in place. */
  class Config {
    var file: seq<Entry>
    var console: seq<Entry>
    var http: seq<Entry>

    function Value(): Registry
      reads this
    {
      Registry(file, console, http)
    }

    constructor (r: Registry)
      ensures Value() == r
    {
      file, console, http := r.file, r.console, r.http;
    }

    /** Replaces the array of one kind. */
    method Put(kind: Kind, es: seq<Entry>)
      modifies this
      ensures Value() == old(Value()).With(kind, es)
    {
      match kind
      case File => file := es;
      case Console => console := es;
      case Http => http := es;
    }
  }

  /** Errors that stop the process while the configuration is loaded. */
  datatype LoadError =
    | InvalidJson
    | OpenFailed(index: nat)
    | BadStdStream(index: nat)
    | MissingUrl(index: nat)
    | TagsNotIterable

  const Post := "POST"
  const ContentType := "content-type"
  const TextPlain := "text/plain"

  /** A console entry names one of the process's standard streams. */
  predicate StdStreamOk(e: Entry) {
    e.stdstream == Some("stdout") || e.stdstream == Some("stderr") || e.stdstream == Some("stdin")
  }

  predicate HasUrl(e: Entry) {
    Present(e.url)
  }

  predicate HasContentType(h: Option<map<string, string>>) {
    h.Some? && ContentType in h.value && h.value[ContentType] != ""
  }

  /** An http entry's method after loading: the configured one, or POST when it is missing or empty. */
  function DefaultMethod(m: Option<string>): (r: Option<string>)
    ensures Present(r)
    ensures Present(m) ==> r == m
    ensures !Present(m) ==> r == Some(Post)
  {
    if Present(m) then m else Some(Post)
  }

  /** An http entry's headers after loading: kept when they carry a content-type, otherwise
      replaced as a whole (other headers are dropped) by a plain-text content-type. */
  function DefaultHeaders(h: Option<map<string, string>>): (r: Option<map<string, string>>)
    ensures HasContentType(r)
    ensures HasContentType(h) ==> r == h
    ensures !HasContentType(h) ==> r == Some(map[ContentType := TextPlain])
  {
    if HasContentType(h) then h else Some(map[ContentType := TextPlain])
  }

  /** The index of the first false element, or |s| when there is none. */
  function FirstFalse(s: seq<bool>): (r: nat)
    ensures r <= |s|
    ensures forall j :: 0 <= j < r ==> s[j]
    ensures r < |s| ==> !s[r]
  {
    if s == [] then 0
    else if !s[0] then 0
    else 1 + FirstFalse(s[1..])
  }

  /** The first false element is at i. */
  lemma FirstFalseAt(s: seq<bool>, i: nat)
    requires i <= |s| && (forall j :: 0 <= j < i ==> s[j]) && (i < |s| ==> !s[i])
    ensures FirstFalse(s) == i
  {
  }

  /** Per file entry: whether its stream opens. */
  function FileOk(reg: Registry, unopenable: set<nat>): (r: seq<bool>)
    ensures |r| == |reg.file| && forall i :: 0 <= i < |r| ==> (r[i] <==> i !in unopenable)
  {
    seq(|reg.file|, i => i !in unopenable)
  }

  /** Per console entry: whether it names a standard stream. */
  function ConsoleOk(reg: Registry): (r: seq<bool>)
    ensures |r| == |reg.console| && forall i :: 0 <= i < |r| ==> (r[i] <==> StdStreamOk(reg.console[i]))
  {
    seq(|reg.console|, i requires 0 <= i < |reg.console| => StdStreamOk(reg.console[i]))
  }

  /** Per http entry: whether it has a url. */
  function HttpOk(reg: Registry): (r: seq<bool>)
    ensures |r| == |reg.http| && forall i :: 0 <= i < |r| ==> (r[i] <==> HasUrl(reg.http[i]))
  {
    seq(|reg.http|, i requires 0 <= i < |reg.http| => HasUrl(reg.http[i]))
  }

  /** The fatal error parseStreams stops at: the file loop runs first, then the console loop,
      then the http loop, and each stops at its first bad entry. */
  function ParseError(reg: Registry, unopenable: set<nat>): (err: Option<LoadError>)
    ensures err.None? <==>
      (forall i :: 0 <= i < |reg.file| ==> i !in unopenable)
      && (forall i :: 0 <= i < |reg.console| ==> StdStreamOk(reg.console[i]))
      && (forall i :: 0 <= i < |reg.http| ==> HasUrl(reg.http[i]))
    ensures err.Some? ==> err.value.OpenFailed? || err.value.BadStdStream? || err.value.MissingUrl?
  {
    var f := FirstFalse(FileOk(reg, unopenable));
    var c := FirstFalse(ConsoleOk(reg));
    var h := FirstFalse(HttpOk(reg));
    if f < |reg.file| then Some(OpenFailed(f))
    else if c < |reg.console| then Some(BadStdStream(c))
    else if h < |reg.http| then Some(MissingUrl(h))
    else None
  }

  /** The error names the first unopenable file entry, or else the first console entry with a bad
      stdstream, or else the first http entry without a url. */
  lemma ParseErrorAt(reg: Registry, unopenable: set<nat>, i: nat)
    ensures ParseError(reg, unopenable) == Some(OpenFailed(i)) <==>
      i < |reg.file| && i in unopenable && forall j :: 0 <= j < i ==> j !in unopenable
    ensures ParseError(reg, unopenable) == Some(BadStdStream(i)) <==>
      && (forall j :: 0 <= j < |reg.file| ==> j !in unopenable)
      && i < |reg.console| && !StdStreamOk(reg.console[i])
      && forall j :: 0 <= j < i ==> StdStreamOk(reg.console[j])
    ensures ParseError(reg, unopenable) == Some(MissingUrl(i)) <==>
      && (forall j :: 0 <= j < |reg.file| ==> j !in unopenable)
      && (forall j :: 0 <= j < |reg.console| ==> StdStreamOk(reg.console[j]))
      && i < |reg.http| && !HasUrl(reg.http[i])
      && forall j :: 0 <= j < i ==> HasUrl(reg.http[j])
  {
    var fs, cs, hs := FileOk(reg, unopenable), ConsoleOk(reg), HttpOk(reg);
    var f, c, h := FirstFalse(fs), FirstFalse(cs), FirstFalse(hs);
    if i < |reg.file| && i in unopenable && forall j :: 0 <= j < i ==> j !in unopenable {
      FirstFalseAt(fs, i);
    }
    if f == |reg.file| {
      if i < |reg.console| && !StdStreamOk(reg.console[i]) && forall j :: 0 <= j < i ==> StdStreamOk(reg.console[j]) {
        FirstFalseAt(cs, i);
      }
      if c == |reg.console| {
        if i < |reg.http| && !HasUrl(reg.http[i]) && forall j :: 0 <= j < i ==> HasUrl(reg.http[j]) {
          FirstFalseAt(hs, i);
        }
      }
    }
  }
}
