/** The lookup table: what a document loads to, and a cache that follows a file by mtime. */
module Lookup {
  import opened Wrappers
  import opened Text
  import Json

  datatype DsConfig = DsConfig(dsId: string, apiUrl: string, apiToken: Json.Value)

  /** The two fields a load replaces. */
  datatype Loaded = Loaded(hosts: set<string>, dataSources: map<string, DsConfig>)

  const NOTHING := Loaded({}, map[])

  // ---------------------------------------------------------------- loading a document

  /** Iterating a JSON value yields these strings, or raises. */
  function Strings(v: Json.Value): Option<seq<string>> {
    match v
    case Array(items) =>
      if forall i | 0 <= i < |items| :: items[i].Text?
      then Some(seq(|items|, i requires 0 <= i < |items| && items[i].Text? => items[i].s)) else None
    case Text(s) => Some(seq(|s|, i requires 0 <= i < |s| => [s[i]]))
    case Object(fields) => Some(seq(|fields|, i requires 0 <= i < |fields| => fields[i].0))
    case _ => None
  }

  /** `rstrip("/")`. */
  function StripSlashes(s: string): (r: string)
    ensures |r| <= |s| && r == s[..|r|]
    ensures r == "" || r[|r| - 1] != '/'
    ensures forall i | |r| <= i < |s| :: s[i] == '/'
  {
    if s != "" && s[|s| - 1] == '/' then StripSlashes(s[..|s| - 1]) else s
  }

  /** `DsConfig(ds_id=key.lower(), api_url=entry["api_url"].rstrip("/"), ...)`, or an exception. */
  function EntryConfig(key: string, entry: Json.Value): Option<DsConfig> {
    match entry
    case Object(fields) =>
      (match (Json.Get(fields, "api_url"), Json.Get(fields, "api_token"))
       case (Some(Text(url)), Some(token)) => Some(DsConfig(Lower(key), StripSlashes(url), token))
       case _ => None)
    case _ => None
  }

  /** The dictionary the first `n` entries fill, later keys over earlier ones. */
  function Entries(fields: seq<(string, Json.Value)>, n: nat): Option<map<string, DsConfig>>
    requires n <= |fields|
  {
    if n == 0 then Some(map[])
    else
      match (Entries(fields, n - 1), EntryConfig(fields[n - 1].0, fields[n - 1].1))
      case (Some(m), Some(c)) => Some(m[Lower(fields[n - 1].0) := c])
      case _ => None
  }

  /** `raw.get("hosts", [])`, lower-cased. */
  function HostsOf(fields: seq<(string, Json.Value)>): Option<set<string>> {
    match Strings(Json.Get(fields, "hosts").UnwrapOr(Json.Array([])))
    case None => None
    case Some(hosts) => Some(set i | 0 <= i < |hosts| :: Lower(hosts[i]))
  }

  /** `(raw.get("data_sources") or {}).items()`. */
  function SourcesOf(fields: seq<(string, Json.Value)>): Option<seq<(string, Json.Value)>> {
    var v := Json.Get(fields, "data_sources").UnwrapOr(Json.Null);
    if !Json.Truthy(v) then Some([])
    else if v.Object? then Some(v.fields)
    else None
  }

  /** What `_load` makes of a document; None when it raises. */
  function Load(doc: Json.Value): Option<Loaded> {
    match doc
    case Object(fields) =>
      (match (HostsOf(fields), SourcesOf(fields))
       case (Some(hosts), Some(sources)) =>
         (match Entries(sources, |sources|)
          case Some(m) => Some(Loaded(hosts, m))
          case None => None)
       case _ => None)
    case _ => None
  }

  /** `_data_sources.get(ds_id.lower())`. */
  function Resolve(l: Loaded, dsId: string): Option<DsConfig> {
    if Lower(dsId) in l.dataSources then Some(l.dataSources[Lower(dsId)]) else None
  }

  // ---------------------------------------------------------------- what a document says

  /** Iterating `v` comes across the string `x`. */
  predicate Lists(v: Json.Value, x: string) {
    match v
    case Array(items) => exists i :: 0 <= i < |items| && items[i] == Json.Text(x)
    case Text(s) => exists i :: 0 <= i < |s| && x == [s[i]]
    case Object(fields) => exists i :: 0 <= i < |fields| && fields[i].0 == x
    case _ => false
  }

  predicate ListsStrings(v: Json.Value) {
    v.Text? || v.Object? || (v.Array? && forall i | 0 <= i < |v.items| :: v.items[i].Text?)
  }

  lemma StringsAreListed(v: Json.Value, x: string)
    ensures Strings(v).Some? <==> ListsStrings(v)
    ensures Strings(v).Some? ==> (x in Strings(v).value <==> Lists(v, x))
  {
    if Strings(v).Some? && Lists(v, x) {
      match v
      case Array(items) =>
        var i :| 0 <= i < |items| && items[i] == Json.Text(x);
        assert Strings(v).value[i] == x;
      case Text(s) =>
        var i :| 0 <= i < |s| && x == [s[i]];
        assert Strings(v).value[i] == x;
      case Object(fields) =>
        var i :| 0 <= i < |fields| && fields[i].0 == x;
        assert Strings(v).value[i] == x;
    }
  }

  /** Host `h` is in the document's list, up to letter case. */
  ghost predicate SaysHost(fields: seq<(string, Json.Value)>, h: string) {
    exists v, x :: Json.Holds(fields, "hosts", v) && Lists(v, x) && Lower(x) == h
  }

  ghost predicate SaysStrings(fields: seq<(string, Json.Value)>) {
    forall v | Json.Holds(fields, "hosts", v) :: ListsStrings(v)
  }

  /** The hosts of a load are the listed ones in lower case, none if there is no list. */
  lemma HostsAreSaid(fields: seq<(string, Json.Value)>)
    ensures HostsOf(fields).Some? <==> SaysStrings(fields)
    ensures HostsOf(fields).Some? ==> forall h :: h in HostsOf(fields).value <==> SaysHost(fields, h)
  {
    hide Lists, Strings, ListsStrings, Json.Holds, Json.Get;
    forall v
      ensures Json.Holds(fields, "hosts", v) <==> Json.Get(fields, "hosts") == Some(v)
      ensures Strings(v).Some? <==> ListsStrings(v)
    {
      Json.GetIsField(fields, "hosts", v);
      StringsAreListed(v, "");
    }
    var v := Json.Get(fields, "hosts").UnwrapOr(Json.Array([]));
    StringsOfNone();
    if Strings(v).Some? {
      forall h
        ensures h in HostsOf(fields).value <==> SaysHost(fields, h)
      {
        HostIsSaid(fields, v, h);
      }
    }
  }

  lemma StringsOfNone()
    ensures Strings(Json.Array([])) == Some([])
  {
    assert Strings(Json.Array([])).value == [];
  }

  lemma HostIsSaid(fields: seq<(string, Json.Value)>, v: Json.Value, h: string)
    requires v == Json.Get(fields, "hosts").UnwrapOr(Json.Array([])) && Strings(v).Some?
    requires forall u :: Json.Holds(fields, "hosts", u) <==> Json.Get(fields, "hosts") == Some(u)
    ensures h in HostsOf(fields).value <==> SaysHost(fields, h)
  {
    hide Lists, Strings, Json.Holds, Json.Get;
    StringsOfNone();
    forall x
      ensures x in Strings(v).value <==> Lists(v, x)
    {
      StringsAreListed(v, x);
    }
    if h in HostsOf(fields).value {
      var i :| 0 <= i < |Strings(v).value| && Lower(Strings(v).value[i]) == h;
      assert Json.Holds(fields, "hosts", v) && Lists(v, Strings(v).value[i]);
    }
    if SaysHost(fields, h) {
      var u, x :| Json.Holds(fields, "hosts", u) && Lists(u, x) && Lower(x) == h;
      assert u == v && x in Strings(v).value;
    }
  }

  /** What an entry says of its data source: the URL without the slashes at its end, and the
      token as it stands. */
  ghost predicate SaysConfig(key: string, entry: Json.Value, c: DsConfig) {
    && c.dsId == Lower(key) && entry.Object?
    && (exists slashes :: IsSlashes(slashes) && Json.Holds(entry.fields, "api_url", Json.Text(c.apiUrl + slashes)))
    && !(c.apiUrl != "" && c.apiUrl[|c.apiUrl| - 1] == '/')
    && Json.Holds(entry.fields, "api_token", c.apiToken)
  }

  predicate IsSlashes(s: string) {
    forall i | 0 <= i < |s| :: s[i] == '/'
  }

  lemma ConfigIsSaid(key: string, entry: Json.Value, c: DsConfig)
    ensures EntryConfig(key, entry) == Some(c) <==> SaysConfig(key, entry, c)
  {
    hide Json.Holds, Json.Get, Lower;
    if entry.Object? {
      var fields := entry.fields;
      forall v
        ensures Json.Holds(fields, "api_url", v) <==> Json.Get(fields, "api_url") == Some(v)
        ensures Json.Holds(fields, "api_token", v) <==> Json.Get(fields, "api_token") == Some(v)
      {
        Json.GetIsField(fields, "api_url", v);
        Json.GetIsField(fields, "api_token", v);
      }
      if EntryConfig(key, entry) == Some(c) {
        var url := Json.Get(fields, "api_url").value.s;
        assert url == c.apiUrl + url[|c.apiUrl|..] && IsSlashes(url[|c.apiUrl|..]);
      }
      if SaysConfig(key, entry, c) {
        var slashes :| IsSlashes(slashes) && Json.Holds(fields, "api_url", Json.Text(c.apiUrl + slashes));
        SlashesStripped(c.apiUrl, slashes);
      }
    }
  }

  lemma {:induction false} SlashesStripped(url: string, slashes: string)
    requires IsSlashes(slashes) && !(url != "" && url[|url| - 1] == '/')
    ensures StripSlashes(url + slashes) == url
    decreases |slashes|
  {
    if slashes == "" {
      assert url + slashes == url;
    } else {
      assert (url + slashes)[..|url + slashes| - 1] == url + slashes[..|slashes| - 1];
      SlashesStripped(url, slashes[..|slashes| - 1]);
    }
  }

  // ---------------------------------------------------------------- the class

  /** The file as one system call sees it. `doc` is None when the text is not JSON. */
  datatype File = Missing | Present(doc: Option<Json.Value>, mtime: int)

  /** What the up to three looks at the file during one call see: the first stat, the read
      and the second stat. */
  datatype View = View(first: File, read: File, second: File)

  datatype Cache = Cache(mtime: Option<int>, loaded: Loaded)

  function MtimeOf(f: File): Option<int> {
    if f.Missing? then None else Some(f.mtime)
  }

  /** `_load`: None when it raises, which leaves the fields as they were. */
  function LoadFrom(read: File, second: File): Option<Cache> {
    match read
    case Missing => Some(Cache(None, NOTHING))
    case Present(None, _) => None
    case Present(Some(doc), _) =>
      match Load(doc)
      case None => None
      case Some(l) => Some(Cache(MtimeOf(second), l))
  }

  /** `_maybe_reload`: None when the load raises. */
  function Reload(c: Cache, view: View): Option<Cache> {
    if view.first.Missing? || MtimeOf(view.first) == c.mtime then Some(c)
    else LoadFrom(view.read, view.second)
  }

  class LookupTable {
    const autoReload: bool
    var mtime: Option<int>
    var hosts: set<string>
    var dataSources: map<string, DsConfig>

    ghost function Contents(): Cache
      reads this
    {
      Cache(mtime, Loaded(hosts, dataSources))
    }

    /** Loads the file at once; where that raises there is no object. */
    constructor (autoReload: bool, read: File, second: File)
      requires LoadFrom(read, second).Some?
      ensures this.autoReload == autoReload && Contents() == LoadFrom(read, second).value
    {
      this.autoReload, mtime, hosts, dataSources := autoReload, None, {}, map[];
      new;
      var ok := LoadFile(read, second);
    }

    /** False when it raises. */
    method LoadFile(read: File, second: File) returns (ok: bool)
      modifies this
      ensures ok == LoadFrom(read, second).Some?
      ensures Contents() == LoadFrom(read, second).UnwrapOr(old(Contents()))
    {
      if read.Missing? {
        mtime, hosts, dataSources := None, {}, map[];
        return true;
      }
      if read.doc.None? || !read.doc.value.Object? {
        return false;
      }
      var fields := read.doc.value.fields;
      var newHosts := HostsOf(fields);
      var sources := SourcesOf(fields);
      if newHosts.None? || sources.None? {
        return false;
      }
      var data: map<string, DsConfig> := map[];
      var n := 0;
      while n < |sources.value|
        invariant n <= |sources.value| && Entries(sources.value, n) == Some(data)
      {
        var entry := sources.value[n];
        var config := EntryConfig(entry.0, entry.1);
        if config.None? {
          RaisesOnce(sources.value, n + 1, |sources.value|);
          return false;
        }
        data := data[Lower(entry.0) := config.value];
        n := n + 1;
      }
      hosts, dataSources, mtime := newHosts.value, data, MtimeOf(second);
      return true;
    }

    method MaybeReload(view: View) returns (ok: bool)
      modifies this
      ensures ok == Reload(old(Contents()), view).Some?
      ensures Contents() == Reload(old(Contents()), view).UnwrapOr(old(Contents()))
    {
      ok := true;
      if view.first.Present? && Some(view.first.mtime) != mtime {
        ok := LoadFile(view.read, view.second);
      }
    }

    /** `resolve`; the outer None stands for an exception. */
    method Lookup(dsId: string, view: View) returns (r: Option<Option<DsConfig>>)
      modifies this
      ensures var c := if autoReload then Reload(old(Contents()), view) else Some(old(Contents()));
              && Contents() == c.UnwrapOr(old(Contents()))
              && r == if c.Some? then Some(Resolve(c.value.loaded, dsId)) else None
    {
      var ok := true;
      if autoReload {
        ok := MaybeReload(view);
      }
      if !ok {
        return None;
      }
      var key := Lower(dsId);
      return Some(if key in dataSources then Some(dataSources[key]) else None);
    }

    /** `allowed_domains`. */
    method AllowedDomains(view: View) returns (r: Option<set<string>>)
      modifies this
      ensures var c := if autoReload then Reload(old(Contents()), view) else Some(old(Contents()));
              && Contents() == c.UnwrapOr(old(Contents()))
              && r == if c.Some? then Some(c.value.loaded.hosts) else None
    {
      var ok := true;
      if autoReload {
        ok := MaybeReload(view);
      }
      return if ok then Some(hosts) else None;
    }
  }

  lemma {:induction false} RaisesOnce(fields: seq<(string, Json.Value)>, k: nat, n: nat)
    requires k <= n <= |fields| && Entries(fields, k).None?
    ensures Entries(fields, n).None?
    decreases n
  {
    if k < n {
      RaisesOnce(fields, k, n - 1);
    }
  }

  // ---------------------------------------------------------------- what resolves

  /** Entry `i` is the last of the first `n` whose key lower-cases to `key`. */
  predicate LastWithKey(fields: seq<(string, Json.Value)>, n: nat, key: string, i: int) {
    && 0 <= i < n <= |fields| && Lower(fields[i].0) == key
    && forall j | i < j < n :: Lower(fields[j].0) != key
  }

  /** A key resolves, in any letter case, to the last entry that differs from it only in
      case; nothing else resolves. */
  lemma {:induction false} EntriesResolve(fields: seq<(string, Json.Value)>, n: nat, key: string)
    requires n <= |fields| && Entries(fields, n).Some?
    ensures key in Entries(fields, n).value <==> exists i :: LastWithKey(fields, n, key, i)
    ensures forall i | LastWithKey(fields, n, key, i) ::
              key in Entries(fields, n).value
              && EntryConfig(fields[i].0, fields[i].1) == Some(Entries(fields, n).value[key])
  {
    hide EntryConfig;
    if n > 0 {
      EntriesResolve(fields, n - 1, key);
      if Lower(fields[n - 1].0) == key {
        assert LastWithKey(fields, n, key, n - 1);
      } else {
        var m := n - 1;
        if exists i :: LastWithKey(fields, m, key, i) {
          var i :| LastWithKey(fields, m, key, i);
          assert LastWithKey(fields, n, key, i);
        }
        if exists i :: LastWithKey(fields, n, key, i) {
          var i :| LastWithKey(fields, n, key, i);
          assert LastWithKey(fields, m, key, i);
        }
      }
    }
  }

  /** The document has these data sources. A falsy value stands for none. */
  ghost predicate SaysSources(fields: seq<(string, Json.Value)>, sources: seq<(string, Json.Value)>) {
    if exists v :: Json.Holds(fields, "data_sources", v) && Json.Truthy(v)
    then Json.Holds(fields, "data_sources", Json.Object(sources))
    else sources == []
  }

  lemma SourcesAreSaid(fields: seq<(string, Json.Value)>, sources: seq<(string, Json.Value)>)
    ensures SourcesOf(fields) == Some(sources) <==> SaysSources(fields, sources)
  {
    forall v
      ensures Json.Holds(fields, "data_sources", v) <==> Json.Get(fields, "data_sources") == Some(v)
    {
      Json.GetIsField(fields, "data_sources", v);
    }
    hide Json.Holds, Json.Get;
  }

  lemma {:induction false} EntriesRaiseIff(fields: seq<(string, Json.Value)>, n: nat)
    requires n <= |fields|
    ensures Entries(fields, n).Some? <==> forall i | 0 <= i < n :: EntryConfig(fields[i].0, fields[i].1).Some?
  {
    hide EntryConfig;
    if n > 0 {
      EntriesRaiseIff(fields, n - 1);
    }
  }

  ghost predicate Describes(key: string, entry: Json.Value) {
    exists c :: SaysConfig(key, entry, c)
  }

  /** Every entry describes a data source. */
  ghost predicate AllDescribed(sources: seq<(string, Json.Value)>) {
    forall i | 0 <= i < |sources| :: Describes(sources[i].0, sources[i].1)
  }

  ghost predicate SaysAll(sources: seq<(string, Json.Value)>, l: Loaded) {
    AllDescribed(sources) && forall dsId :: SaysOf(sources, dsId, Resolve(l, dsId))
  }

  /** What a load of the document holds, if it does not raise. */
  ghost predicate Says(fields: seq<(string, Json.Value)>, l: Loaded) {
    && SaysStrings(fields) && (forall h :: h in l.hosts <==> SaysHost(fields, h))
    && exists sources :: SaysSources(fields, sources) && SaysAll(sources, l)
  }

  /** The data source a key gives: the entry of the last key equal to it up to letter case. */
  ghost predicate SaysOf(sources: seq<(string, Json.Value)>, dsId: string, c: Option<DsConfig>) {
    && (c.Some? <==> exists i :: LastWithKey(sources, |sources|, Lower(dsId), i))
    && forall i | LastWithKey(sources, |sources|, Lower(dsId), i) ::
         c.Some? && SaysConfig(sources[i].0, sources[i].1, c.value)
  }

  /** A document loads to the hosts and the data sources it lists and to nothing else, and
      the load raises exactly for a document that does not list them properly. */
  lemma LoadIsSaid(doc: Json.Value)
    ensures Load(doc).Some? <==> doc.Object? && exists l :: Says(doc.fields, l)
    ensures Load(doc).Some? ==> Says(doc.fields, Load(doc).value)
  {
    hide Says;
    if doc.Object? {
      var fields := doc.fields;
      HostsAreSaid(fields);
      if Load(doc).Some? {
        LoadSays(fields);
      }
      if exists l :: Says(fields, l) {
        var l :| Says(fields, l);
        SaidLoads(fields, l);
      }
    }
  }

  lemma LoadSays(fields: seq<(string, Json.Value)>)
    requires Load(Json.Object(fields)).Some?
    ensures Says(fields, Load(Json.Object(fields)).value)
  {
    hide HostsOf, SourcesOf, Entries, EntryConfig, SaysHost, SaysStrings, SaysSources, SaysConfig, LastWithKey;
    var l, sources := Load(Json.Object(fields)).value, SourcesOf(fields).value;
    HostsAreSaid(fields);
    SourcesAreSaid(fields, sources);
    DescribedIff(sources);
    forall dsId
      ensures SaysOf(sources, dsId, Resolve(l, dsId))
    {
      ResolvesAsSaid(sources, l, dsId);
    }
  }

  lemma ResolvesAsSaid(sources: seq<(string, Json.Value)>, l: Loaded, dsId: string)
    requires Entries(sources, |sources|) == Some(l.dataSources)
    ensures SaysOf(sources, dsId, Resolve(l, dsId))
  {
    hide Entries, EntryConfig, SaysConfig, LastWithKey;
    EntriesResolve(sources, |sources|, Lower(dsId));
    forall i | LastWithKey(sources, |sources|, Lower(dsId), i)
      ensures Resolve(l, dsId).Some? && 0 <= i < |sources|
      ensures SaysConfig(sources[i].0, sources[i].1, Resolve(l, dsId).value)
    {
      InRange(sources, Lower(dsId), i);
      ConfigIsSaid(sources[i].0, sources[i].1, Resolve(l, dsId).value);
    }
  }

  lemma InRange(sources: seq<(string, Json.Value)>, key: string, i: int)
    requires LastWithKey(sources, |sources|, key, i)
    ensures 0 <= i < |sources|
  {
  }

  lemma SaidLoads(fields: seq<(string, Json.Value)>, l: Loaded)
    requires Says(fields, l)
    ensures Load(Json.Object(fields)).Some?
  {
    hide HostsOf, SourcesOf, Entries, SaysHost, SaysStrings, SaysSources, AllDescribed, SaysOf;
    HostsAreSaid(fields);
    var sources :| SaysSources(fields, sources) && SaysAll(sources, l);
    SourcesAreSaid(fields, sources);
    DescribedIff(sources);
  }

  lemma DescribedIff(sources: seq<(string, Json.Value)>)
    ensures Entries(sources, |sources|).Some? <==> AllDescribed(sources)
  {
    hide Entries, EntryConfig, Describes;
    EntriesRaiseIff(sources, |sources|);
    forall i | 0 <= i < |sources|
      ensures EntryConfig(sources[i].0, sources[i].1).Some? <==> Describes(sources[i].0, sources[i].1)
    {
      DescribesIff(sources[i].0, sources[i].1);
    }
  }

  lemma DescribesIff(key: string, entry: Json.Value)
    ensures EntryConfig(key, entry).Some? <==> Describes(key, entry)
  {
    hide EntryConfig, SaysConfig;
    forall c
      ensures EntryConfig(key, entry) == Some(c) <==> SaysConfig(key, entry, c)
    {
      ConfigIsSaid(key, entry, c);
    }
    if EntryConfig(key, entry).Some? {
      assert SaysConfig(key, entry, EntryConfig(key, entry).value);
    }
  }

  // ---------------------------------------------------------------- the cache and its file

  /** What others do to the file: replace it under an mtime it never had, or remove it. */
  datatype Edit = Replace(doc: Option<Json.Value>, mtime: int) | Remove

  /** The file, and every content it has had by mtime. */
  datatype Disk = Disk(file: File, history: map<int, Option<Json.Value>>)

  function AfterEdit(d: Disk, e: Edit): Disk {
    match e
    case Replace(doc, mtime) => Disk(Present(doc, mtime), d.history[mtime := doc])
    case Remove => d.(file := Missing)
  }

  function Edited(d: Disk, edits: seq<Edit>): Disk
    decreases |edits|
  {
    if edits == [] then d else Edited(AfterEdit(d, edits[0]), edits[1..])
  }

  /** No replacement reuses an mtime. */
  predicate CanEdit(d: Disk, edits: seq<Edit>)
    decreases |edits|
  {
    edits != [] ==>
      && (edits[0].Replace? ==> edits[0].mtime !in d.history)
      && CanEdit(AfterEdit(d, edits[0]), edits[1..])
  }

  /** The two looks a load takes at the file: the read and the second stat. */
  datatype Fill = Fill(read: File, second: File)

  /** A process: its cache of the file, and the looks of the load that filled it. */
  datatype Process = Process(cache: Cache, fill: Fill)

  /** The file, and the process if one is up. */
  datatype World = World(disk: Disk, process: Option<Process>)

  /** The file is edited; a process starts and loads it, with edits between the read and the
      second stat; or it is asked, with edits before the read and before the second stat. */
  datatype Happening =
    | Change(edit: Edit)
    | Open(after: seq<Edit>)
    | Query(before: seq<Edit>, after: seq<Edit>)

  function ReadDisk(w: World, h: Happening): Disk {
    match h
    case Change(e) => Edited(w.disk, [e])
    case Open(_) => w.disk
    case Query(before, _) => Edited(w.disk, before)
  }

  function LastDisk(w: World, h: Happening): Disk {
    if h.Change? then ReadDisk(w, h) else Edited(ReadDisk(w, h), h.after)
  }

  function ViewOf(w: World, h: Happening): View {
    View(w.disk.file, ReadDisk(w, h).file, LastDisk(w, h).file)
  }

  predicate Possible(w: World, h: Happening) {
    match h
    case Change(e) => CanEdit(w.disk, [e])
    case Open(after) => CanEdit(w.disk, after)
    case Query(before, after) => w.process.Some? && CanEdit(w.disk, before) && CanEdit(ReadDisk(w, h), after)
  }

  /** This query loads the file. */
  predicate Loads(w: World, h: Happening) {
    h.Query? && w.process.Some? && w.disk.file.Present? && MtimeOf(w.disk.file) != w.process.value.cache.mtime
  }

  /** A load that raises leaves the cache as it was; a process whose first load raises does
      not come up. */
  function Happen(w: World, h: Happening): World {
    var (view, disk) := (ViewOf(w, h), LastDisk(w, h));
    var loaded := LoadFrom(view.read, view.second);
    var process := if loaded.Some? then Some(Process(loaded.value, Fill(view.read, view.second))) else None;
    if h.Open? then World(disk, process)
    else if Loads(w, h) && process.Some? then World(disk, process)
    else w.(disk := disk)
  }

  /** What a query answers from; None when it raises. */
  function Answer(w: World, h: Happening): Option<Cache>
    requires w.process.Some?
  {
    Reload(w.process.value.cache, ViewOf(w, h))
  }

  /** What a fresh load of the file yields; None when it raises. */
  function Fresh(f: File): Option<Loaded> {
    match f
    case Missing => Some(NOTHING)
    case Present(None, _) => None
    case Present(Some(doc), _) => Load(doc)
  }

  predicate Agrees(answer: Option<Cache>, f: File) {
    answer.Some? == Fresh(f).Some? && (answer.Some? ==> answer.value.loaded == Fresh(f).value)
  }

  /** The file a query looks at: the one it read, or the one whose mtime it recognised. */
  function LookedAt(w: World, h: Happening): File {
    if Loads(w, h) then ReadDisk(w, h).file else w.disk.file
  }

  predicate Begins(w: World) {
    w.process.None? && Known(w.disk.history, w.disk.file)
  }

  function Played(w: World, hs: seq<Happening>, n: nat): World
    requires n <= |hs|
  {
    if n == 0 then w else Happen(Played(w, hs, n - 1), hs[n - 1])
  }

  predicate Playable(w: World, hs: seq<Happening>) {
    forall i: nat | i < |hs| :: Possible(Played(w, hs, i), hs[i])
  }

  // ---------------------------------------------------------------- the invariant

  /** An mtime stands for one content. */
  predicate Known(history: map<int, Option<Json.Value>>, f: File) {
    f.Present? ==> f.mtime in history && history[f.mtime] == f.doc
  }

  /** The cache holds what its load read, under the mtime that load saw last. */
  predicate Faithful(w: World) {
    && Known(w.disk.history, w.disk.file)
    && (w.process.Some? ==>
          var (cache, fill) := (w.process.value.cache, w.process.value.fill);
          && Known(w.disk.history, fill.read) && Known(w.disk.history, fill.second)
          && LoadFrom(fill.read, fill.second) == Some(cache))
  }

  /** Editing forgets no content and leaves a known file. */
  lemma {:induction false} EditsKnown(d: Disk, edits: seq<Edit>, f: File)
    requires Known(d.history, d.file) && CanEdit(d, edits) && Known(d.history, f)
    ensures Known(Edited(d, edits).history, Edited(d, edits).file)
    ensures Known(Edited(d, edits).history, f)
    decreases |edits|
  {
    if edits != [] {
      EditsKnown(AfterEdit(d, edits[0]), edits[1..], f);
    }
  }

  /** A file known when something happens is known afterwards; so are the files it looks at. */
  lemma HappenKnown(w: World, h: Happening, f: File)
    requires Known(w.disk.history, w.disk.file) && Possible(w, h) && Known(w.disk.history, f)
    ensures Known(LastDisk(w, h).history, f)
    ensures Known(LastDisk(w, h).history, ReadDisk(w, h).file)
    ensures Known(LastDisk(w, h).history, LastDisk(w, h).file)
  {
    hide Known, CanEdit, Edited;
    match h
    case Change(e) =>
      EditsKnown(w.disk, [e], f);
    case Open(after) =>
      EditsKnown(w.disk, after, f);
      EditsKnown(w.disk, after, w.disk.file);
    case Query(before, after) =>
      EditsKnown(w.disk, before, f);
      EditsKnown(ReadDisk(w, h), after, f);
      EditsKnown(ReadDisk(w, h), after, ReadDisk(w, h).file);
  }

  lemma HappenFaithful(w: World, h: Happening)
    requires Faithful(w) && Possible(w, h)
    ensures Faithful(Happen(w, h))
  {
    hide Known, CanEdit, Edited, Possible, LoadFrom;
    HappenKnown(w, h, w.disk.file);
    if w.process.Some? {
      HappenKnown(w, h, w.process.value.fill.read);
      HappenKnown(w, h, w.process.value.fill.second);
    }
  }

  lemma {:induction false} PlayedFaithful(w: World, hs: seq<Happening>, n: nat)
    requires Begins(w) && Playable(w, hs) && n <= |hs|
    ensures Faithful(Played(w, hs, n))
  {
    if n > 0 {
      hide Faithful, Possible, Happen;
      PlayedFaithful(w, hs, n - 1);
      HappenFaithful(Played(w, hs, n - 1), hs[n - 1]);
    }
  }

  // ---------------------------------------------------------------- when the cache agrees

  /** Nothing is edited between the read and the second stat of a load. */
  predicate QuietLoads(hs: seq<Happening>) {
    forall i | 0 <= i < |hs| && !hs[i].Change? :: hs[i].after == []
  }

  lemma {:induction false} PlayedQuiet(w: World, hs: seq<Happening>, n: nat)
    requires Begins(w) && Playable(w, hs) && n <= |hs| && QuietLoads(hs)
    ensures var v := Played(w, hs, n); v.process.Some? ==> v.process.value.fill.read == v.process.value.fill.second
  {
    hide Possible, LoadFrom;
    if n > 0 {
      PlayedQuiet(w, hs, n - 1);
    }
  }

  /** Over every history of edits, restarts and queries in which no load is disturbed between
      its read and its second stat: a query of an existing file answers as a fresh load of the
      file it looked at would, and raises exactly when that would. */
  lemma CacheAgrees(w: World, hs: seq<Happening>, n: nat)
    requires Begins(w) && Playable(w, hs) && QuietLoads(hs) && n < |hs| && hs[n].Query?
    requires Played(w, hs, n).disk.file.Present?
    ensures var v := Played(w, hs, n); v.process.Some? && Agrees(Answer(v, hs[n]), LookedAt(v, hs[n]))
  {
    PlayedFaithful(w, hs, n);
    PlayedQuiet(w, hs, n);
    hide Played, Playable, Edited, CanEdit, Load;
  }

  /** A query that loads answers as a fresh load of the file it read, disturbed or not. */
  lemma LoadAgrees(w: World, h: Happening)
    requires Loads(w, h)
    ensures Agrees(Answer(w, h), ReadDisk(w, h).file)
  {
    hide Load, Edited;
  }

  /** While the file is missing, a query still answers what the last load read. */
  lemma RemovedStillAnswers(w: World, hs: seq<Happening>, n: nat)
    requires Begins(w) && Playable(w, hs) && n < |hs| && hs[n].Query?
    requires Played(w, hs, n).disk.file.Missing?
    ensures var v := Played(w, hs, n);
            && v.process.Some? && Agrees(Answer(v, hs[n]), v.process.value.fill.read)
            && Played(w, hs, n + 1).process == v.process
  {
    PlayedFaithful(w, hs, n);
    hide Playable, Edited, CanEdit, Load;
  }

  /** A query with nothing changing under it would not answer as a fresh load of the file. */
  predicate Stale(w: World) {
    w.process.Some? && w.disk.file.Present? && !Agrees(Answer(w, Query([], [])), w.disk.file)
  }

  /** The load that filled the cache was overtaken: it read one content, and the file has been
      unchanged since another one, which loads differently, replaced it before the second
      stat. */
  predicate Overtaken(w: World) {
    && w.process.Some? && w.process.value.fill.read.Present? && w.disk.file.Present?
    && w.process.value.fill.second == w.disk.file
    && w.process.value.fill.read.mtime != w.disk.file.mtime
    && Fresh(w.process.value.fill.read) != Fresh(w.disk.file)
  }

  /** Over every history of edits, restarts and queries, disturbed at any point: the cache is
      stale exactly when the load that filled it was overtaken. */
  lemma StaleIffOvertaken(w: World, hs: seq<Happening>, n: nat)
    requires Begins(w) && Playable(w, hs) && n <= |hs|
    ensures Stale(Played(w, hs, n)) <==> Overtaken(Played(w, hs, n))
  {
    PlayedFaithful(w, hs, n);
    StaleHere(Played(w, hs, n));
  }

  lemma StaleHere(w: World)
    requires Faithful(w)
    ensures Stale(w) <==> Overtaken(w)
  {
    assert Edited(w.disk, []) == w.disk;
    hide Edited, Load;
  }

  /** Staleness is not noticed by asking, and ends with the next replacement. */
  lemma StaleUntilReplaced(w: World, hs: seq<Happening>, n: nat, e: Edit)
    requires Begins(w) && Playable(w, hs) && n <= |hs| && Stale(Played(w, hs, n))
    requires Possible(Played(w, hs, n), Change(e))
    ensures Happen(Played(w, hs, n), Query([], [])) == Played(w, hs, n)
    ensures !Stale(Happen(Played(w, hs, n), Change(e)))
  {
    var v := Played(w, hs, n);
    PlayedFaithful(w, hs, n);
    StaleHere(v);
    HappenFaithful(v, Change(e));
    StaleHere(Happen(v, Change(e)));
    EditedOnce(v.disk, e);
    hide Stale, Played, Playable, Load;
    assert Edited(v.disk, []) == v.disk;
  }

  lemma EditedOnce(d: Disk, e: Edit)
    ensures Edited(d, [e]) == AfterEdit(d, e)
    ensures CanEdit(d, [e]) && e.Replace? ==> e.mtime !in d.history
  {
    assert [e][1..] == [];
  }
}
