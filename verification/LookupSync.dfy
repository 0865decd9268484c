/** The refresh of the lookup file: validate, then replace two files, each atomically. */
module LookupSync {
  import opened Wrappers
  import opened Text
  import Json
  import Lookup

  // ---------------------------------------------------------------- validation

  datatype Rejection =
    | NotAnObject
    | BadHosts
    | BadDataSources
    | BadEntry(key: string)
    | BadField(key: string, field: string)

  predicate NonBlank(v: Option<Json.Value>) {
    v.Some? && v.value.Text? && Strip(v.value.s) != ""
  }

  /** The first thing wrong with an entry. */
  function EntryRejection(key: string, entry: Json.Value): Option<Rejection> {
    match entry
    case Object(fields) =>
      if !NonBlank(Json.Get(fields, "api_url")) then Some(BadField(key, "api_url"))
      else if !NonBlank(Json.Get(fields, "api_token")) then Some(BadField(key, "api_token"))
      else None
    case _ => Some(BadEntry(key))
  }

  function FirstRejection(fields: seq<(string, Json.Value)>): Option<Rejection> {
    if fields == [] then None
    else
      var r := EntryRejection(fields[0].0, fields[0].1);
      if r.Some? then r else FirstRejection(fields[1..])
  }

  predicate GoodHosts(v: Option<Json.Value>) {
    v.Some? && v.value.Array?
    && forall i | 0 <= i < |v.value.items| :: NonBlank(Some(v.value.items[i]))
  }

  /** `validate_payload`: None accepts. */
  function Validate(doc: Json.Value): Option<Rejection> {
    match doc
    case Object(fields) =>
      if !GoodHosts(Json.Get(fields, "hosts")) then Some(BadHosts)
      else
        (match Json.Get(fields, "data_sources")
         case Some(Object(sources)) => FirstRejection(sources)
         case _ => Some(BadDataSources))
    case _ => Some(NotAnObject)
  }

  /** The object has a text under this key, and not only white space. */
  ghost predicate HoldsText(fields: seq<(string, Json.Value)>, key: string) {
    exists s :: Json.Holds(fields, key, Json.Text(s)) && Visible(s)
  }

  predicate Visible(s: string) {
    exists i :: 0 <= i < |s| && !IsSpace(s[i])
  }

  ghost predicate CompleteEntry(entry: Json.Value) {
    entry.Object? && HoldsText(entry.fields, "api_url") && HoldsText(entry.fields, "api_token")
  }

  ghost predicate CompleteEntries(sources: seq<(string, Json.Value)>) {
    forall i | 0 <= i < |sources| :: CompleteEntry(sources[i].1)
  }

  predicate VisibleTexts(items: seq<Json.Value>) {
    forall i | 0 <= i < |items| :: items[i].Text? && Visible(items[i].s)
  }

  ghost predicate HoldsHosts(fields: seq<(string, Json.Value)>) {
    exists hosts :: Json.Holds(fields, "hosts", Json.Array(hosts)) && VisibleTexts(hosts)
  }

  ghost predicate HoldsSources(fields: seq<(string, Json.Value)>) {
    exists sources :: Json.Holds(fields, "data_sources", Json.Object(sources)) && CompleteEntries(sources)
  }

  /** A document as the hosting is to serve it: a list of hosts and an object of data
      sources, each with a URL and a token. */
  ghost predicate Complete(doc: Json.Value) {
    doc.Object? && HoldsHosts(doc.fields) && HoldsSources(doc.fields)
  }

  lemma TextIsHeld(fields: seq<(string, Json.Value)>, key: string)
    ensures NonBlank(Json.Get(fields, key)) <==> HoldsText(fields, key)
  {
    hide Json.Get, Json.Holds, Visible, Strip;
    var v := Json.Get(fields, key);
    if v.Some? && v.value.Text? {
      Json.GetIsField(fields, key, v.value);
      StripLeaves(v.value.s);
      VisibleIs(v.value.s);
    }
    if HoldsText(fields, key) {
      var s :| Json.Holds(fields, key, Json.Text(s)) && Visible(s);
      Json.GetIsField(fields, key, Json.Text(s));
    }
  }

  lemma VisibleIs(s: string)
    ensures Visible(s) <==> Strip(s) != ""
  {
    StripLeaves(s);
  }

  lemma EntryIsComplete(key: string, entry: Json.Value)
    ensures EntryRejection(key, entry).None? <==> CompleteEntry(entry)
  {
    hide NonBlank, HoldsText, Json.Get;
    if entry.Object? {
      TextIsHeld(entry.fields, "api_url");
      TextIsHeld(entry.fields, "api_token");
    }
  }

  lemma {:induction false} FirstRejectionIff(fields: seq<(string, Json.Value)>)
    ensures FirstRejection(fields).None? <==>
            forall i | 0 <= i < |fields| :: EntryRejection(fields[i].0, fields[i].1).None?
  {
    hide EntryRejection;
    if fields != [] {
      FirstRejectionIff(fields[1..]);
      assert forall i | 1 <= i < |fields| :: fields[i] == fields[1..][i - 1];
    }
  }

  lemma HostsAreComplete(fields: seq<(string, Json.Value)>)
    ensures GoodHosts(Json.Get(fields, "hosts")) <==> HoldsHosts(fields)
  {
    hide Json.Get, Json.Holds, Visible, Strip;
    forall v
      ensures Json.Holds(fields, "hosts", v) <==> Json.Get(fields, "hosts") == Some(v)
    {
      Json.GetIsField(fields, "hosts", v);
    }
    forall s
      ensures Visible(s) <==> Strip(s) != ""
    {
      VisibleIs(s);
    }
  }

  lemma SourcesAreComplete(fields: seq<(string, Json.Value)>)
    ensures (match Json.Get(fields, "data_sources")
             case Some(Object(sources)) => FirstRejection(sources).None?
             case _ => false)
            <==> HoldsSources(fields)
  {
    hide Json.Get, Json.Holds, FirstRejection, CompleteEntries;
    forall v
      ensures Json.Holds(fields, "data_sources", v) <==> Json.Get(fields, "data_sources") == Some(v)
    {
      Json.GetIsField(fields, "data_sources", v);
    }
    forall sources
      ensures FirstRejection(sources).None? <==> CompleteEntries(sources)
    {
      EntriesAreComplete(sources);
    }
  }

  lemma EntriesAreComplete(sources: seq<(string, Json.Value)>)
    ensures FirstRejection(sources).None? <==> CompleteEntries(sources)
  {
    hide FirstRejection, CompleteEntry, EntryRejection;
    FirstRejectionIff(sources);
    forall i | 0 <= i < |sources|
      ensures EntryRejection(sources[i].0, sources[i].1).None? <==> CompleteEntry(sources[i].1)
    {
      EntryIsComplete(sources[i].0, sources[i].1);
    }
  }

  /** Exactly the complete documents are accepted. */
  lemma AcceptedIff(doc: Json.Value)
    ensures Validate(doc).None? <==> Complete(doc)
  {
    hide Json.Get, FirstRejection, GoodHosts, HoldsHosts, HoldsSources;
    if doc.Object? {
      HostsAreComplete(doc.fields);
      SourcesAreComplete(doc.fields);
    }
  }

  lemma {:induction false} AcceptedEntries(fields: seq<(string, Json.Value)>, n: nat)
    requires n <= |fields|
    requires forall i | 0 <= i < |fields| :: EntryRejection(fields[i].0, fields[i].1).None?
    ensures Lookup.Entries(fields, n).Some?
  {
    hide EntryRejection, Lookup.EntryConfig, Lower;
    if n > 0 {
      AcceptedEntries(fields, n - 1);
      AcceptedEntry(fields[n - 1].0, fields[n - 1].1);
    }
  }

  lemma AcceptedEntry(key: string, entry: Json.Value)
    requires EntryRejection(key, entry).None?
    ensures Lookup.EntryConfig(key, entry).Some?
  {
    hide Strip, Json.Get, Lower, Lookup.StripSlashes;
  }

  /** The hosts of an accepted document are strings. */
  lemma AcceptedHosts(fields: seq<(string, Json.Value)>)
    requires GoodHosts(Json.Get(fields, "hosts"))
    ensures Lookup.HostsOf(fields).Some?
  {
  }

  /** The entries of an accepted document. */
  function Sources(doc: Json.Value): seq<(string, Json.Value)>
    requires Validate(doc).None?
  {
    Json.Get(doc.fields, "data_sources").value.fields
  }

  /** An accepted document loads without an exception. */
  lemma AcceptedLoads(doc: Json.Value)
    requires Validate(doc).None?
    ensures Lookup.Load(doc).Some?
    ensures Lookup.Entries(Sources(doc), |Sources(doc)|) == Some(Lookup.Load(doc).value.dataSources)
  {
    hide Lookup.EntryConfig, EntryRejection, Lookup.HostsOf, GoodHosts, Json.Get, Lower, Lookup.Entries;
    FirstRejectionIff(Sources(doc));
    AcceptedHosts(doc.fields);
    AcceptedEntries(Sources(doc), |Sources(doc)|);
  }

  /** Each key of an accepted document resolves in any letter case, to the entry of the last
      key that differs from it only in case. */
  lemma AcceptedResolves(doc: Json.Value, i: nat, dsId: string) returns (k: nat)
    requires Validate(doc).None?
    requires i < |Sources(doc)| && Lower(dsId) == Lower(Sources(doc)[i].0)
    ensures Lookup.LastWithKey(Sources(doc), |Sources(doc)|, Lower(dsId), k)
    ensures Lookup.Load(doc).Some? && Lookup.EntryConfig(Sources(doc)[k].0, Sources(doc)[k].1).Some?
    ensures Lookup.Resolve(Lookup.Load(doc).value, dsId) == Lookup.EntryConfig(Sources(doc)[k].0, Sources(doc)[k].1)
  {
    AcceptedLoads(doc);
    var sources := Sources(doc);
    hide Lookup.EntryConfig, Validate, Lookup.Load, Lower, Lookup.Entries, Sources;
    k := LastMatch(sources, |sources|, Lower(dsId), i);
    Lookup.EntriesResolve(sources, |sources|, Lower(dsId));
  }

  lemma {:induction false} LastMatch(fields: seq<(string, Json.Value)>, n: nat, key: string, i: nat) returns (k: nat)
    requires i < n <= |fields| && Lower(fields[i].0) == key
    ensures Lookup.LastWithKey(fields, n, key, k)
    decreases n
  {
    if Lower(fields[n - 1].0) == key {
      k := n - 1;
    } else {
      k := LastMatch(fields, n - 1, key, i);
    }
  }

  // ---------------------------------------------------------------- the file system

  /** How far a sequence of file operations gets: a step may raise OSError, or the process
      may die before it, having written only part of a file. */
  datatype Fate = Runs | FailsAt(step: nat) | DiesAt(step: nat, written: nat)

  datatype Ending = Done | Raised | Dead

  function At(files: map<string, string>, name: string): Option<string> {
    if name in files then Some(files[name]) else None
  }

  /** A directory. The temporary names `mkstemp` makes are fresh. */
  class Directory {
    var files: map<string, string>

    constructor ()
      ensures files == map[]
    {
      files := map[];
    }

    /** `_write_atomic`, operation by operation: create, write, chmod, replace. Whatever
        happens, `target` holds its old content or all of the new, and no other file than
        the temporary one is touched; an error leaves no temporary file behind. */
    method WriteAtomic(target: string, content: string, tmp: string, fate: Fate) returns (end: Ending)
      requires tmp !in files && tmp != target
      modifies this
      ensures end.Done? ==> files == old(files)[target := content]
      ensures end.Raised? ==> files == old(files)
      ensures end.Dead? ==>
                && (forall f | f !in {tmp, target} :: At(files, f) == old(At(files, f)))
                && (At(files, target) == old(At(files, target)) || At(files, target) == Some(content))
      ensures fate.Runs? ==> end.Done?
      ensures end.Raised? ==> fate.FailsAt?
      ensures end.Dead? ==> fate.DiesAt?
    {
      if fate == FailsAt(0) {
        return Raised;
      }
      if fate.DiesAt? && fate.step == 0 {
        return Dead;
      }
      files := files[tmp := ""];
      if fate == FailsAt(1) {
        files := files - {tmp};
        return Raised;
      }
      if fate.DiesAt? && fate.step == 1 {
        files := files[tmp := content[..if fate.written < |content| then fate.written else |content|]];
        return Dead;
      }
      files := files[tmp := content];
      if fate == FailsAt(2) || fate == FailsAt(3) {
        files := files - {tmp};
        return Raised;
      }
      if fate.DiesAt? && fate.step <= 3 {
        return Dead;
      }
      files := files[target := content] - {tmp};
      if fate.DiesAt? && fate.step == 4 {
        return Dead;
      }
      return Done;
    }
  }

  // ---------------------------------------------------------------- one cycle

  /** What the GET produced. `doc` is None when the body is not JSON. */
  datatype Fetch =
    | Unreachable
    | Status(code: int)
    | Body(doc: Option<Json.Value>, etag: Option<string>)

  /** The two files of the refresh. */
  datatype FilePair = FilePair(lookup: Option<string>, etag: Option<string>)

  function PairOf(files: map<string, string>, name: string): FilePair {
    FilePair(At(files, name), At(files, name + ".etag"))
  }

  /** `_read_etag`: the If-None-Match header, left out when there is no tag. */
  function ReadEtag(content: Option<string>): Option<string> {
    match content
    case None => None
    case Some(text) => if Strip(text) == "" then None else Some(Strip(text))
  }

  /** The document a fetch installs. */
  function Accepted(fetch: Fetch): Option<Json.Value> {
    match fetch
    case Body(Some(doc), _) => if Validate(doc).None? then Some(doc) else None
    case _ => None
  }

  function EtagText(fetch: Fetch): string {
    (if fetch.Body? then fetch.etag.UnwrapOr("") else "") + "\n"
  }

  /** The text `json.dumps` gives a document, with the newline after it. */
  function FileText(dumps: Json.Value -> string, doc: Json.Value): string {
    dumps(doc) + "\n"
  }

  /** The disks one cycle may leave: untouched, or with the new document, or with the new
      document and its tag. There is no other. */
  predicate Leaves(dumps: Json.Value -> string, before: FilePair, fetch: Fetch, after: FilePair) {
    || after == before
    || (Accepted(fetch).Some?
        && after.lookup == Some(FileText(dumps, Accepted(fetch).value))
        && (after.etag == before.etag || after.etag == Some(EtagText(fetch))))
  }

  /** `sync_once`: the exit code, or None when it dies. `serve` is what the GET with this
      If-None-Match header produces. The files the cycle leaves, at whatever point it stops,
      are among those `Leaves` allows, and exit 0 means either nothing was to be installed or
      everything was. */
  method SyncOnce(dir: Directory, configured: bool, name: string, serve: Option<string> -> Fetch,
                  dumps: Json.Value -> string, tmp1: string, tmp2: string, fate1: Fate, fate2: Fate)
    returns (code: Option<int>)
    requires tmp1 !in dir.files && tmp2 !in dir.files && tmp1 != tmp2
    requires {tmp1, tmp2} !! {name, name + ".etag"} && name != name + ".etag"
    modifies dir
    ensures var before, after := old(PairOf(dir.files, name)), PairOf(dir.files, name);
            var fetch := serve(ReadEtag(before.etag));
            && Leaves(dumps, before, fetch, after)
            && (code == Some(0) ==>
                  after == if Accepted(fetch).None? then before
                           else FilePair(Some(FileText(dumps, Accepted(fetch).value)), Some(EtagText(fetch))))
            && (code == Some(1) ==> Accepted(fetch).Some? && (fate1.FailsAt? || fate2.FailsAt?))
    ensures code.Some? ==> code.value == 0 || code.value == 1 || code.value == 2
    ensures code == Some(2) <==> !configured
    ensures !configured ==> dir.files == old(dir.files)
    ensures code.None? ==> fate1.DiesAt? || fate2.DiesAt?
    ensures forall f | f !in {name, name + ".etag", tmp1, tmp2} :: At(dir.files, f) == old(At(dir.files, f))
    ensures code.Some? ==> tmp1 !in dir.files && tmp2 !in dir.files
  {
    if !configured {
      return Some(2);
    }
    var fetch := serve(ReadEtag(At(dir.files, name + ".etag")));
    if fetch.Unreachable? || fetch.Status? {
      return Some(0);
    }
    if fetch.doc.None? {
      return Some(0);
    }
    if Validate(fetch.doc.value).Some? {
      return Some(0);
    }
    hide Validate, ReadEtag, FileText, EtagText;
    var end := dir.WriteAtomic(name, FileText(dumps, fetch.doc.value), tmp1, fate1);
    if end.Raised? {
      return Some(1);
    }
    if end.Dead? {
      return None;
    }
    end := dir.WriteAtomic(name + ".etag", EtagText(fetch), tmp2, fate2);
    if end.Raised? {
      return Some(1);
    }
    if end.Dead? {
      return None;
    }
    return Some(0);
  }

  // ---------------------------------------------------------------- whole runs

  /** What the hosting serves, newest last. */
  datatype Version = Version(etag: string, doc: Json.Value)

  datatype Site = Site(history: seq<Version>, disk: FilePair)

  datatype Step = Publish(v: Version) | Sync(fetch: Fetch, after: FilePair)

  predicate IsTag(tag: string) {
    tag != "" && Trimmed(tag)
  }

  /** Section 13.1.2 of RFC 9110: 304 answers a request whose If-None-Match names the current
      tag; a 200 carries the current document, and its tag if any. */
  predicate Honest(s: Site, fetch: Fetch)
    requires s.history != []
  {
    && (fetch == Status(304) ==> ReadEtag(s.disk.etag) == Some(s.history[|s.history| - 1].etag))
    && (fetch.Body? && fetch.doc.Some? ==>
          && fetch.doc.value == s.history[|s.history| - 1].doc
          && (fetch.etag.Some? ==> fetch.etag.value == s.history[|s.history| - 1].etag))
  }

  predicate MayHappen(dumps: Json.Value -> string, s: Site, step: Step) {
    match step
    case Publish(v) => IsTag(v.etag) && forall i | 0 <= i < |s.history| :: s.history[i].etag != v.etag
    case Sync(fetch, after) => s.history != [] && Honest(s, fetch) && Leaves(dumps, s.disk, fetch, after)
  }

  function Take(s: Site, step: Step): Site {
    match step
    case Publish(v) => s.(history := s.history + [v])
    case Sync(_, after) => s.(disk := after)
  }

  function SiteAt(s: Site, steps: seq<Step>, n: nat): Site
    requires n <= |steps|
  {
    if n == 0 then s else Take(SiteAt(s, steps, n - 1), steps[n - 1])
  }

  predicate IsHistory(dumps: Json.Value -> string, s: Site, steps: seq<Step>) {
    forall i: nat | i < |steps| :: MayHappen(dumps, SiteAt(s, steps, i), steps[i])
  }

  // ---------------------------------------------------------------- the invariant

  /** The lookup file is version `i`, complete. */
  predicate Installed(dumps: Json.Value -> string, s: Site, i: int) {
    0 <= i < |s.history| && s.disk.lookup == Some(FileText(dumps, s.history[i].doc))
  }

  predicate UniqueTags(history: seq<Version>) {
    && (forall i | 0 <= i < |history| :: IsTag(history[i].etag))
    && (forall i, j | 0 <= i < j < |history| :: history[i].etag != history[j].etag)
  }

  /** The stored tag belongs to the installed version or, after a stop between the two
      writes, to an older one. */
  predicate TagBehind(dumps: Json.Value -> string, s: Site, j: int, i: int) {
    j <= i && Installed(dumps, s, i) && 0 <= j && ReadEtag(s.disk.etag) == Some(s.history[j].etag)
  }

  ghost predicate InStep(dumps: Json.Value -> string, s: Site) {
    && UniqueTags(s.history)
    && (ReadEtag(s.disk.etag).Some? ==> exists j, i :: TagBehind(dumps, s, j, i))
  }

  /** A tag survives being written with a newline and read back stripped. */
  lemma TagReadsBack(tag: string)
    requires IsTag(tag)
    ensures ReadEtag(Some(tag + "\n")) == Some(tag)
  {
    hide StripLeft, StripRight;
    var text := tag + "\n";
    NothingToStrip(tag, text);
    assert text[|text| - 1] == '\n' && text[..|text| - 1] == tag;
    DropSpace(text);
  }

  lemma NothingToStrip(tag: string, text: string)
    requires IsTag(tag) && text != "" && text[0] == tag[0]
    ensures StripLeft(text) == text && StripRight(tag) == tag
  {
  }

  lemma DropSpace(text: string)
    requires text != "" && IsSpace(text[|text| - 1])
    ensures StripRight(text) == StripRight(text[..|text| - 1])
  {
  }

  /** A missing tag is written as an empty line and read back as no tag. */
  lemma NoTagReadsBack()
    ensures ReadEtag(Some("\n")) == None
  {
  }

  /** What a fetch writes as its tag is what the next If-None-Match header says. */
  lemma FetchedTagIsAsked(fetch: Fetch)
    requires fetch.Body? && (fetch.etag.Some? ==> IsTag(fetch.etag.value))
    ensures ReadEtag(Some(EtagText(fetch))) == fetch.etag
  {
    if fetch.etag.Some? {
      TagReadsBack(fetch.etag.value);
    } else {
      NoTagReadsBack();
      assert "" + "\n" == "\n";
    }
    hide ReadEtag;
  }

  /** An installed version is what the lookup table loads: for any reader that takes what
      `json.dumps` writes, with a newline after it, back to the document. */
  lemma InstalledIsLoaded(dumps: Json.Value -> string, loads: string -> Option<Json.Value>, s: Site, i: int,
                          mtime: int, second: Lookup.File)
    requires Installed(dumps, s, i) && Validate(s.history[i].doc).None?
    requires forall doc :: loads(dumps(doc) + "\n") == Some(doc)
    ensures Lookup.Load(s.history[i].doc).Some?
    ensures Lookup.LoadFrom(Lookup.Present(loads(s.disk.lookup.value), mtime), second) ==
            Some(Lookup.Cache(Lookup.MtimeOf(second), Lookup.Load(s.history[i].doc).value))
  {
    AcceptedLoads(s.history[i].doc);
    assert loads(dumps(s.history[i].doc) + "\n") == Some(s.history[i].doc);
    hide Validate, Lookup.Load;
  }

  lemma PublishStaysInStep(dumps: Json.Value -> string, s: Site, step: Step)
    requires step.Publish? && MayHappen(dumps, s, step) && InStep(dumps, s)
    ensures InStep(dumps, Take(s, step))
  {
    var s' := Take(s, step);
    if ReadEtag(s.disk.etag).Some? {
      var j, i :| TagBehind(dumps, s, j, i);
      assert TagBehind(dumps, s', j, i);
    }
  }

  lemma SyncStaysInStep(dumps: Json.Value -> string, s: Site, step: Step)
    requires step.Sync? && MayHappen(dumps, s, step) && InStep(dumps, s)
    ensures InStep(dumps, Take(s, step))
  {
    var s', last := Take(s, step), |s.history| - 1;
    if s'.disk != s.disk {
      assert Installed(dumps, s', last);
      if s'.disk.etag == s.disk.etag {
        if ReadEtag(s.disk.etag).Some? {
          var j, i :| TagBehind(dumps, s, j, i);
          assert TagBehind(dumps, s', j, last);
        }
      } else {
        var tag := s.history[last].etag;
        TagReadsBack(tag);
        NoTagReadsBack();
        assert "" + "\n" == "\n";
        if ReadEtag(s'.disk.etag).Some? {
          assert TagBehind(dumps, s', last, last);
        }
      }
    } else if ReadEtag(s.disk.etag).Some? {
      var j, i :| TagBehind(dumps, s, j, i);
      assert TagBehind(dumps, s', j, i);
    }
  }

  lemma StepOfHistory(dumps: Json.Value -> string, s: Site, steps: seq<Step>, i: nat)
    requires IsHistory(dumps, s, steps) && i < |steps|
    ensures MayHappen(dumps, SiteAt(s, steps, i), steps[i])
    ensures SiteAt(s, steps, i + 1) == Take(SiteAt(s, steps, i), steps[i])
  {
    hide MayHappen, Take;
  }

  lemma {:induction false} HistoryStaysInStep(dumps: Json.Value -> string, s: Site, steps: seq<Step>, n: nat)
    requires InStep(dumps, s) && IsHistory(dumps, s, steps) && n <= |steps|
    ensures InStep(dumps, SiteAt(s, steps, n))
  {
    hide InStep, IsHistory, MayHappen, Take;
    if n > 0 {
      HistoryStaysInStep(dumps, s, steps, n - 1);
      StepOfHistory(dumps, s, steps, n - 1);
      hide SiteAt;
      StepStaysInStep(dumps, SiteAt(s, steps, n - 1), steps[n - 1]);
    }
  }

  lemma StepStaysInStep(dumps: Json.Value -> string, s: Site, step: Step)
    requires MayHappen(dumps, s, step) && InStep(dumps, s)
    ensures InStep(dumps, Take(s, step))
  {
    hide InStep, MayHappen, Take;
    if step.Publish? {
      PublishStaysInStep(dumps, s, step);
    } else {
      SyncStaysInStep(dumps, s, step);
    }
  }

  /** The lookup file is what the history started with, or a whole accepted version. */
  ghost predicate Whole(dumps: Json.Value -> string, start: Site, s: Site) {
    || s.disk.lookup == start.disk.lookup
    || exists i :: Installed(dumps, s, i) && Validate(s.history[i].doc).None?
  }

  lemma StaysWhole(dumps: Json.Value -> string, start: Site, s: Site, step: Step)
    requires MayHappen(dumps, s, step) && Whole(dumps, start, s)
    ensures Whole(dumps, start, Take(s, step))
  {
    hide FileText, ReadEtag, EtagText, Honest, Trimmed;
    var after := Take(s, step);
    if after.disk.lookup != s.disk.lookup {
      InstallsLast(dumps, s, step);
    } else if s.disk.lookup != start.disk.lookup {
      hide MayHappen, Accepted, Leaves;
      var i :| Installed(dumps, s, i) && Validate(s.history[i].doc).None?;
      assert Installed(dumps, after, i);
    }
  }

  /** A refresh that changes the lookup file installs the site's current document, after
      validating it. */
  lemma InstallsLast(dumps: Json.Value -> string, s: Site, step: Step)
    requires MayHappen(dumps, s, step) && Take(s, step).disk.lookup != s.disk.lookup
    ensures var after := Take(s, step);
            && after.history == s.history && s.history != []
            && Installed(dumps, after, |after.history| - 1)
            && Validate(after.history[|after.history| - 1].doc).None?
  {
    hide FileText, ReadEtag, EtagText, Trimmed, Validate;
  }

  /** Crash safety. Over every history of publications and refreshes, each refresh stopping
      wherever it likes, also between its two writes: the lookup file is never torn and
      never a rejected document. */
  lemma {:induction false} NeverTorn(dumps: Json.Value -> string, s: Site, steps: seq<Step>, n: nat)
    requires IsHistory(dumps, s, steps) && n <= |steps|
    ensures Whole(dumps, s, SiteAt(s, steps, n))
  {
    hide Whole, IsHistory, MayHappen, Take;
    if n > 0 {
      NeverTorn(dumps, s, steps, n - 1);
      StepOfHistory(dumps, s, steps, n - 1);
      StaysWhole(dumps, s, SiteAt(s, steps, n - 1), steps[n - 1]);
    } else {
      StartsWhole(dumps, s);
    }
  }

  lemma StartsWhole(dumps: Json.Value -> string, s: Site)
    ensures Whole(dumps, s, s)
  {
    hide Installed;
  }

  /** A 304 can be trusted. If tags are never reused, then whenever a refresh is answered
      304, the lookup file is the site's current document, even after refreshes that died
      between writing the document and writing its tag. */
  lemma NotModifiedIsCurrent(dumps: Json.Value -> string, s: Site, steps: seq<Step>, n: nat)
    requires InStep(dumps, s) && IsHistory(dumps, s, steps) && n < |steps|
    requires steps[n].Sync? && steps[n].fetch == Status(304)
    ensures var v := SiteAt(s, steps, n);
            v.history != []
            && v.disk.lookup == Some(FileText(dumps, v.history[|v.history| - 1].doc))
            && SiteAt(s, steps, n + 1) == v
  {
    hide InStep, MayHappen, IsHistory, Take;
    HistoryStaysInStep(dumps, s, steps, n);
    StepOfHistory(dumps, s, steps, n);
    NotModifiedHere(dumps, SiteAt(s, steps, n), steps[n]);
  }

  lemma NotModifiedHere(dumps: Json.Value -> string, v: Site, step: Step)
    requires InStep(dumps, v) && MayHappen(dumps, v, step)
    requires step.Sync? && step.fetch == Status(304)
    ensures v.history != [] && v.disk.lookup == Some(FileText(dumps, v.history[|v.history| - 1].doc))
    ensures Take(v, step) == v
  {
    hide FileText, ReadEtag, EtagText, Trimmed, Validate;
    var j, i :| TagBehind(dumps, v, j, i);
    assert j == |v.history| - 1;
  }

  /** Tags must not come back: a refresh that installs a new version and dies before writing
      its tag, followed by a rollback of the site to the older version under its old tag, is
      answered 304 from then on and keeps the version that was rolled back. */
  lemma ReusedTagGoesStale(dumps: Json.Value -> string, older: Version, newer: Version)
    returns (synced: Site, cut: Step, back: Site)
    requires IsTag(older.etag) && IsTag(newer.etag) && older.etag != newer.etag
    requires Validate(newer.doc).None? && FileText(dumps, older.doc) != FileText(dumps, newer.doc)
    ensures InStep(dumps, synced) && synced.history == [older] && synced.disk.lookup == Some(FileText(dumps, older.doc))
    ensures MayHappen(dumps, synced, Publish(newer))
    ensures cut.Sync? && MayHappen(dumps, Take(synced, Publish(newer)), cut)
    ensures back == Take(Take(Take(synced, Publish(newer)), cut), Publish(older))
    ensures Honest(back, Status(304))
    ensures back.disk.lookup != Some(FileText(dumps, back.history[|back.history| - 1].doc))
  {
    hide *;
    var tagText := older.etag + "\n";
    TagReadsBack(older.etag);
    synced := Site([older], FilePair(Some(FileText(dumps, older.doc)), Some(tagText)));
    StartsInStep(dumps, synced, older);
    cut := Sync(Body(Some(newer.doc), Some(newer.etag)), FilePair(Some(FileText(dumps, newer.doc)), Some(tagText)));
    CutIsPossible(dumps, synced, older, newer, cut);
    back := Take(Take(Take(synced, Publish(newer)), cut), Publish(older));
    RollbackIsStale(dumps, synced, older, newer, cut);
  }

  lemma StartsInStep(dumps: Json.Value -> string, s: Site, v: Version)
    requires IsTag(v.etag) && s.history == [v] && s.disk.lookup == Some(FileText(dumps, v.doc))
    requires ReadEtag(s.disk.etag) == Some(v.etag)
    ensures InStep(dumps, s)
  {
    hide IsTag, ReadEtag, FileText;
    assert TagBehind(dumps, s, 0, 0);
  }

  lemma CutIsPossible(dumps: Json.Value -> string, s: Site, older: Version, newer: Version, cut: Step)
    requires s.history == [older] && IsTag(newer.etag) && older.etag != newer.etag && Validate(newer.doc).None?
    requires cut == Sync(Body(Some(newer.doc), Some(newer.etag)), FilePair(Some(FileText(dumps, newer.doc)), s.disk.etag))
    ensures MayHappen(dumps, s, Publish(newer))
    ensures MayHappen(dumps, Take(s, Publish(newer)), cut)
  {
    hide IsTag, ReadEtag, FileText, Validate;
  }

  lemma RollbackIsStale(dumps: Json.Value -> string, s: Site, older: Version, newer: Version, cut: Step)
    requires s.history == [older] && ReadEtag(s.disk.etag) == Some(older.etag)
    requires FileText(dumps, older.doc) != FileText(dumps, newer.doc)
    requires cut.Sync? && cut.after == FilePair(Some(FileText(dumps, newer.doc)), s.disk.etag)
    ensures var back := Take(Take(Take(s, Publish(newer)), cut), Publish(older));
            && Honest(back, Status(304))
            && back.disk.lookup != Some(FileText(dumps, back.history[|back.history| - 1].doc))
  {
  }
}
