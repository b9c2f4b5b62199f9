// Export bundles, internal/bundle/bundle.go, as lists of named zip entries.
module Bundles {
  import Text
  import opened Wrappers

  type Bytes = seq<bv8>

  // A raw JSON message, by its value.
  type Item = string

  // The fields of a manifest that differ from their zero value, which is written "";
  // those of its summary go by their path.
  const ZERO := ""
  type Fields = m: map<string, string> | forall f :: f in m ==> m[f] != ZERO witness map[]
  datatype Manifest = Manifest(fields: Fields)
  const NO_MANIFEST := Manifest(map[])

  datatype Bundle = Bundle(
    manifest: Manifest,
    benchmarks: seq<Item>, baselines: seq<Item>, workloads: seq<Item>,
    runProfiles: seq<Item>, infraProfiles: seq<Item>, logs: seq<Item>,
    files: map<string, Bytes>)

  const EMPTY := Bundle(NO_MANIFEST, [], [], [], [], [], [], map[])

  // ---- Sections ----

  datatype Section = Benchmarks | Baselines | Workloads | RunProfiles | InfraProfiles | Logs

  function Get(b: Bundle, s: Section): seq<Item> {
    match s
    case Benchmarks => b.benchmarks
    case Baselines => b.baselines
    case Workloads => b.workloads
    case RunProfiles => b.runProfiles
    case InfraProfiles => b.infraProfiles
    case Logs => b.logs
  }

  function With(b: Bundle, s: Section, items: seq<Item>): Bundle {
    match s
    case Benchmarks => b.(benchmarks := items)
    case Baselines => b.(baselines := items)
    case Workloads => b.(workloads := items)
    case RunProfiles => b.(runProfiles := items)
    case InfraProfiles => b.(infraProfiles := items)
    case Logs => b.(logs := items)
  }

  const MANIFEST_NAME := "manifest.json"

  function NameOf(s: Section): string {
    match s
    case Benchmarks => "data/benchmarks.json"
    case Baselines => "data/baselines.json"
    case Workloads => "data/workloads.json"
    case RunProfiles => "data/run_profiles.json"
    case InfraProfiles => "data/infra_profiles.json"
    case Logs => "data/logs.json"
  }

  function SectionNamed(name: string): Option<Section> {
    if name == NameOf(Benchmarks) then Some(Benchmarks)
    else if name == NameOf(Baselines) then Some(Baselines)
    else if name == NameOf(Workloads) then Some(Workloads)
    else if name == NameOf(RunProfiles) then Some(RunProfiles)
    else if name == NameOf(InfraProfiles) then Some(InfraProfiles)
    else if name == NameOf(Logs) then Some(Logs)
    else None
  }

  // ---- Merging of manifests ----

  function FieldOf(m: Manifest, f: string): string {
    if f in m.fields then m.fields[f] else ZERO
  }

  // Decoding into a manifest sets the fields that the text gives, and no others.
  function Merged(m: Manifest, given: map<string, string>): Manifest {
    var next := m.fields + given;
    Manifest(map f | f in next && next[f] != ZERO :: next[f])
  }

  // The text of a manifest gives all its fields, perhaps some of them as zero.
  predicate Gives(given: map<string, string>, m: Manifest) {
    && (forall f :: f in m.fields ==> f in given)
    && (forall f :: f in given ==> given[f] == FieldOf(m, f))
  }

  lemma GivenTwice(p: Manifest, m: Manifest, given: map<string, string>)
    requires Gives(given, m) && (p == NO_MANIFEST || p == m)
    ensures Merged(p, given) == m
  {
    assert Merged(p, given).fields == m.fields;
  }

  // ---- filepath.Join("files", name) ----

  const SLASH := '/'

  // path.Clean on the elements of a relative path.
  function CleanElements(parts: seq<string>): seq<string> {
    if parts == [] then [] else CleanNext(CleanElements(parts[..|parts| - 1]), parts[|parts| - 1])
  }

  function CleanNext(stack: seq<string>, part: string): seq<string> {
    if part == "" || part == "." then stack
    else if part == ".." && stack != [] && stack[|stack| - 1] != ".." then stack[..|stack| - 1]
    else stack + [part]
  }

  lemma CleanSnoc(parts: seq<string>, part: string)
    ensures CleanElements(parts + [part]) == CleanNext(CleanElements(parts), part)
  {
    assert (parts + [part])[..|parts|] == parts;
  }

  function Clean(path: string): string {
    var stack := CleanElements(Text.Split(path, SLASH));
    if stack == [] then "." else Text.Join(stack, SLASH)
  }

  const FOLDER := "files"
  const FOLDER_PREFIX := "files/"

  // Join leaves out empty elements.
  function EntryName(name: string): string {
    if name == "" then Clean(FOLDER) else Clean(FOLDER_PREFIX + name)
  }

  // A non-empty relative path without empty, "." or ".." elements.
  predicate IsClean(name: string) {
    var parts := Text.Split(name, SLASH);
    forall i :: 0 <= i < |parts| ==> parts[i] != "" && parts[i] != "." && parts[i] != ".."
  }

  // What Clean leaves: no empty or "." element, and ".." only in front.
  predicate Stacked(stack: seq<string>) {
    && (forall i :: 0 <= i < |stack| ==> stack[i] != "" && stack[i] != "." && SLASH !in stack[i])
    && (forall i :: 0 < i < |stack| && stack[i] == ".." ==> stack[i - 1] == "..")
  }

  lemma {:induction false} CleanStacks(parts: seq<string>)
    requires forall i :: 0 <= i < |parts| ==> SLASH !in parts[i]
    ensures Stacked(CleanElements(parts))
  {
    if parts != [] {
      CleanStacks(parts[..|parts| - 1]);
    }
  }

  lemma {:induction false} CleanKeepsStacked(stack: seq<string>)
    requires Stacked(stack)
    ensures CleanElements(stack) == stack
  {
    if stack != [] {
      var n := |stack| - 1;
      CleanKeepsStacked(stack[..n]);
      assert stack == stack[..n] + [stack[n]];
    }
  }

  lemma CleanKeeps(parts: seq<string>)
    requires forall i :: 0 <= i < |parts| ==> parts[i] != "" && parts[i] != "." && parts[i] != ".." && SLASH !in parts[i]
    ensures CleanElements(parts) == parts
  {
    CleanKeepsStacked(parts);
  }

  lemma {:induction false} CleanAlike(a: seq<string>, b: seq<string>, rest: seq<string>)
    requires CleanElements(a) == CleanElements(b)
    ensures CleanElements(a + rest) == CleanElements(b + rest)
    decreases |rest|
  {
    if rest == [] {
      assert a + rest == a && b + rest == b;
    } else {
      var front, last := rest[..|rest| - 1], rest[|rest| - 1];
      CleanAlike(a, b, front);
      CleanSnoc(a + front, last);
      CleanSnoc(b + front, last);
      LastApart(a, rest);
      LastApart(b, rest);
    }
  }

  lemma LastApart<T>(a: seq<T>, rest: seq<T>)
    requires rest != []
    ensures a + rest == a + rest[..|rest| - 1] + [rest[|rest| - 1]]
  {}

  // Empty elements and "." drop out; ".." takes the element before it along.
  lemma CleanDrops(before: seq<string>, part: string, after: seq<string>)
    ensures part == "" || part == "." ==> CleanElements(before + [part] + after) == CleanElements(before + after)
    ensures part != "" && part != "." && part != ".." ==>
              CleanElements(before + [part, ".."] + after) == CleanElements(before + after)
  {
    var one, two := before + [part], before + [part, ".."];
    CleanSnoc(before, part);
    if part == "" || part == "." {
      CleanAlike(one, before, after);
    } else if part != ".." {
      CleanSnoc(one, "..");
      assert one + [".."] == two;
      CleanAlike(two, before, after);
    }
  }

  lemma {:induction false} NoDotsAfter(stack: seq<string>, i: nat)
    requires Stacked(stack) && i < |stack| && stack[0] != ".."
    ensures stack[i] != ".."
  {
    if i > 0 {
      NoDotsAfter(stack, i - 1);
    }
  }

  lemma SplitInFolder(name: string)
    ensures Text.Split(FOLDER_PREFIX + name, SLASH) == [FOLDER] + Text.Split(name, SLASH)
  {
    assert FOLDER_PREFIX + name == FOLDER + [SLASH] + name;
    Text.SplitFirst(FOLDER, SLASH, name);
  }

  // The entry of a file has its name after the folder exactly when the name is clean.
  lemma EntryNameKeepsExactlyClean(name: string)
    ensures EntryName(name) == FOLDER_PREFIX + name <==> IsClean(name)
  {
    var parts := Text.Split(name, SLASH);
    var all := [FOLDER] + parts;
    SplitInFolder(name);
    if IsClean(name) {
      EmptyNotClean();
      CleanKeeps(all);
      Text.JoinSplit(FOLDER_PREFIX + name, SLASH);
    } else if name == "" {
      EmptyEntry();
    } else if EntryName(name) == FOLDER_PREFIX + name {
      EntriesAreClean(name, name);
    }
  }

  lemma EmptyNotClean()
    ensures !IsClean("")
  {
    assert Text.Split("", SLASH)[0] == "";
  }

  lemma EmptyEntry()
    ensures EntryName("") == FOLDER
  {
    Text.SplitWhole(FOLDER, SLASH);
    CleanKeeps([FOLDER]);
  }

  // An entry name inside the folder is clean after the folder, whatever file it came from.
  lemma EntriesAreClean(name: string, suffix: string)
    requires EntryName(name) == FOLDER_PREFIX + suffix && suffix != ""
    ensures IsClean(suffix)
  {
    var path := if name == "" then FOLDER else FOLDER_PREFIX + name;
    var stack := CleanElements(Text.Split(path, SLASH));
    CleanStacks(Text.Split(path, SLASH));
    SplitInFolder(suffix);
    assert |FOLDER_PREFIX + suffix| > |"."|;
    if stack != [] {
      Text.SplitJoin(stack, SLASH);
      NotCleanNotStacked(Text.Split(suffix, SLASH), stack);
    }
  }

  lemma NotCleanNotStacked(parts: seq<string>, all: seq<string>)
    requires all == [FOLDER] + parts && Stacked(all)
    ensures forall i :: 0 <= i < |parts| ==> parts[i] != "" && parts[i] != "." && parts[i] != ".."
  {
    forall i | 0 <= i < |parts|
      ensures parts[i] != "" && parts[i] != "." && parts[i] != ".."
    {
      assert all[i + 1] == parts[i];
      NoDotsAfter(all, i + 1);
    }
  }

  // ---- Entries ----

  datatype Entry = Entry(name: string, content: Bytes)

  // The JSON encodings stand outside the model.
  datatype Codec = Codec(
    marshalManifest: Manifest -> Bytes, unmarshalManifest: Bytes -> Option<map<string, string>>,
    marshalItems: seq<Item> -> Bytes, unmarshalItems: Bytes -> Option<seq<Item>>)

  ghost predicate Lawful(codec: Codec) {
    && (forall m: Manifest :: var text := codec.unmarshalManifest(codec.marshalManifest(m));
                              text.Some? && Gives(text.value, m))
    && (forall items: seq<Item> :: codec.unmarshalItems(codec.marshalItems(items)) == Some(items))
  }

  const SECTIONS := [Benchmarks, Baselines, Workloads, RunProfiles, InfraProfiles, Logs]

  function ManifestEntry(codec: Codec, b: Bundle): Entry {
    Entry(MANIFEST_NAME, codec.marshalManifest(b.manifest))
  }

  function SectionEntry(codec: Codec, b: Bundle, s: Section): Entry {
    Entry(NameOf(s), codec.marshalItems(Get(b, s)))
  }

  function FileEntry(name: string, content: Bytes): Entry {
    Entry(EntryName(name), content)
  }

  // What a bundle consists of: its manifest, its non-empty sections and its files.
  ghost predicate Expected(codec: Codec, b: Bundle, e: Entry) {
    || e == ManifestEntry(codec, b)
    || (exists s: Section :: Get(b, s) != [] && e == SectionEntry(codec, b, s))
    || (exists name :: name in b.files && e == FileEntry(name, b.files[name]))
  }

  // The same entries, in any order.
  ghost predicate Writes(codec: Codec, entries: seq<Entry>, b: Bundle) {
    forall e :: e in entries <==> Expected(codec, b, e)
  }

  function SectionEntries(codec: Codec, b: Bundle, sections: seq<Section>): seq<Entry> {
    if sections == [] then []
    else
      var n := |sections| - 1;
      SectionEntries(codec, b, sections[..n]) + if Get(b, sections[n]) != [] then [SectionEntry(codec, b, sections[n])] else []
  }

  lemma {:induction false} SectionEntriesAre(codec: Codec, b: Bundle, sections: seq<Section>, e: Entry)
    ensures e in SectionEntries(codec, b, sections)
       <==> exists s :: s in sections && Get(b, s) != [] && e == SectionEntry(codec, b, s)
  {
    if sections != [] {
      var n := |sections| - 1;
      SectionEntriesAre(codec, b, sections[..n], e);
      assert sections == sections[..n] + [sections[n]];
      if e == SectionEntry(codec, b, sections[n]) && Get(b, sections[n]) != [] {
        assert sections[n] in sections;
      }
    }
  }

  lemma EverySection(s: Section)
    ensures s in SECTIONS
  {
    assert SECTIONS[0] == Benchmarks && SECTIONS[1] == Baselines && SECTIONS[2] == Workloads;
    assert SECTIONS[3] == RunProfiles && SECTIONS[4] == InfraProfiles && SECTIONS[5] == Logs;
  }

  // The files come in the arbitrary order of a map.
  method WriteToZip(codec: Codec, b: Bundle) returns (entries: seq<Entry>)
    ensures Writes(codec, entries, b)
  {
    entries := [ManifestEntry(codec, b)];
    for i := 0 to |SECTIONS|
      invariant entries == [ManifestEntry(codec, b)] + SectionEntries(codec, b, SECTIONS[..i])
    {
      assert SECTIONS[..i + 1][..i] == SECTIONS[..i];
      var s := SECTIONS[i];
      if |Get(b, s)| > 0 {
        entries := entries + [SectionEntry(codec, b, s)];
      }
    }
    ghost var head := entries;
    var todo := b.files.Keys;
    while todo != {}
      invariant todo <= b.files.Keys
      invariant forall e :: e in entries <==>
                  e in head || exists name :: name in b.files && name !in todo && e == FileEntry(name, b.files[name])
      decreases |todo|
    {
      var name :| name in todo;
      entries := entries + [FileEntry(name, b.files[name])];
      todo := todo - {name};
    }
    AllWritten(codec, b, head, entries);
  }

  lemma AllWritten(codec: Codec, b: Bundle, head: seq<Entry>, entries: seq<Entry>)
    requires head == [ManifestEntry(codec, b)] + SectionEntries(codec, b, SECTIONS[..|SECTIONS|])
    requires forall e :: e in entries <==> e in head || exists name :: name in b.files && e == FileEntry(name, b.files[name])
    ensures Writes(codec, entries, b)
  {
    assert SECTIONS[..|SECTIONS|] == SECTIONS;
    forall e
      ensures e in entries <==> Expected(codec, b, e)
    {
      SectionEntriesAre(codec, b, SECTIONS, e);
      forall s: Section {
        EverySection(s);
      }
    }
  }

  // ---- Loading ----

  datatype Result = Ok(bundle: Bundle) | Err(entry: string)

  predicate InFolder(name: string) {
    |name| > |FOLDER_PREFIX| && name[..|FOLDER_PREFIX|] == FOLDER_PREFIX
  }

  // A second section or file of the same name replaces the first, a second manifest is
  // merged into it; names outside the folder are ignored.
  function LoadEntry(codec: Codec, b: Bundle, e: Entry): Result {
    if e.name == MANIFEST_NAME then
      match codec.unmarshalManifest(e.content)
      case Some(given) => Ok(b.(manifest := Merged(b.manifest, given)))
      case None => Err(e.name)
    else match SectionNamed(e.name)
      case Some(s) =>
        (match codec.unmarshalItems(e.content)
         case Some(items) => Ok(With(b, s, items))
         case None => Err(e.name))
      case None =>
        if InFolder(e.name) then Ok(b.(files := b.files[e.name[|FOLDER_PREFIX|..] := e.content])) else Ok(b)
  }

  function Load(codec: Codec, entries: seq<Entry>): Result {
    if entries == [] then Ok(EMPTY)
    else match Load(codec, entries[..|entries| - 1])
      case Err(name) => Err(name)
      case Ok(b) => LoadEntry(codec, b, entries[|entries| - 1])
  }

  method LoadFromZip(codec: Codec, entries: seq<Entry>) returns (r: Result)
    ensures r == Load(codec, entries)
  {
    var bundle := EMPTY;
    for i := 0 to |entries|
      invariant Load(codec, entries[..i]) == Ok(bundle)
    {
      assert entries[..i + 1][..i] == entries[..i];
      r := LoadEntry(codec, bundle, entries[i]);
      if r.Err? {
        ErrorStays(codec, entries, i + 1);
        return;
      }
      bundle := r.bundle;
    }
    assert entries[..|entries|] == entries;
    r := Ok(bundle);
  }

  lemma {:induction false} ErrorStays(codec: Codec, entries: seq<Entry>, i: nat)
    requires i <= |entries| && Load(codec, entries[..i]).Err?
    ensures Load(codec, entries) == Load(codec, entries[..i])
    decreases |entries|
  {
    if i == |entries| {
      assert entries[..i] == entries;
    } else {
      var n := |entries| - 1;
      assert entries[..n][..i] == entries[..i];
      ErrorStays(codec, entries[..n], i);
    }
  }

  // An entry that the bundle needs and that does not parse.
  predicate Unreadable(codec: Codec, e: Entry) {
    || (e.name == "manifest.json" && codec.unmarshalManifest(e.content).None?)
    || (SectionNamed(e.name).Some? && codec.unmarshalItems(e.content).None?)
  }

  // Entry i is the first of them.
  predicate FirstUnreadable(codec: Codec, entries: seq<Entry>, i: nat) {
    && i < |entries| && Unreadable(codec, entries[i])
    && forall j :: 0 <= j < i ==> !Unreadable(codec, entries[j])
  }

  lemma EntryFails(codec: Codec, b: Bundle, e: Entry)
    ensures LoadEntry(codec, b, e) == Err(e.name) <==> Unreadable(codec, e)
    ensures LoadEntry(codec, b, e).Err? <==> Unreadable(codec, e)
  {
    forall s: Section {
      SectionNames(s);
    }
  }

  lemma {:induction false} FailedEntry(codec: Codec, entries: seq<Entry>) returns (i: nat)
    requires Load(codec, entries).Err?
    ensures FirstUnreadable(codec, entries, i) && Load(codec, entries).entry == entries[i].name
  {
    var n := |entries| - 1;
    if Load(codec, entries[..n]).Err? {
      i := FailedEntry(codec, entries[..n]);
      FirstInFront(codec, entries, n, i);
    } else {
      i := n;
      AllReadable(codec, entries[..n]);
      EntryFails(codec, Load(codec, entries[..n]).bundle, entries[n]);
      assert forall j :: 0 <= j < n ==> entries[..n][j] == entries[j];
    }
  }

  lemma FirstInFront(codec: Codec, entries: seq<Entry>, n: nat, i: nat)
    requires n <= |entries| && FirstUnreadable(codec, entries[..n], i)
    ensures FirstUnreadable(codec, entries, i) && entries[i] == entries[..n][i]
  {
    forall j | 0 <= j < i
      ensures !Unreadable(codec, entries[j])
    {
      assert entries[..n][j] == entries[j];
    }
  }

  lemma WasReadable(codec: Codec, entries: seq<Entry>, j: nat)
    requires Load(codec, entries).Ok? && j < |entries|
    ensures !Unreadable(codec, entries[j])
  {
    var front := entries[..j + 1];
    if Load(codec, front).Err? {
      ErrorStays(codec, entries, j + 1);
    }
    LoadedBefore(codec, front);
  }

  lemma LoadedBefore(codec: Codec, entries: seq<Entry>)
    requires Load(codec, entries).Ok? && entries != []
    ensures Load(codec, entries[..|entries| - 1]).Ok? && !Unreadable(codec, entries[|entries| - 1])
  {
    EntryFails(codec, Load(codec, entries[..|entries| - 1]).bundle, entries[|entries| - 1]);
  }

  lemma AllReadable(codec: Codec, entries: seq<Entry>)
    requires Load(codec, entries).Ok?
    ensures forall j :: 0 <= j < |entries| ==> !Unreadable(codec, entries[j])
  {
    forall j | 0 <= j < |entries|
      ensures !Unreadable(codec, entries[j])
    {
      WasReadable(codec, entries, j);
    }
  }

  // Loading fails exactly when some needed entry does not parse, and names the first.
  lemma LoadFailsExactlyWhen(codec: Codec, entries: seq<Entry>, name: string)
    ensures Load(codec, entries) == Err(name)
       <==> exists i: nat :: FirstUnreadable(codec, entries, i) && entries[i].name == name
  {
    if Load(codec, entries).Err? {
      var i := FailedEntry(codec, entries);
      if k: nat :| FirstUnreadable(codec, entries, k) && entries[k].name == name {
        assert i == k;
      }
    } else {
      AllReadable(codec, entries);
    }
  }

  // What the last entry of a section or a file holds.
  function LastItems(codec: Codec, entries: seq<Entry>, s: Section): seq<Item> {
    if entries == [] then []
    else
      var n := |entries| - 1;
      if entries[n].name == NameOf(s) && codec.unmarshalItems(entries[n].content).Some?
      then codec.unmarshalItems(entries[n].content).value
      else LastItems(codec, entries[..n], s)
  }

  function LastContent(entries: seq<Entry>, name: string): Option<Bytes> {
    if entries == [] then None
    else
      var n := |entries| - 1;
      if entries[n].name == name then Some(entries[n].content) else LastContent(entries[..n], name)
  }

  lemma EntrySets(codec: Codec, b: Bundle, e: Entry, s: Section)
    requires LoadEntry(codec, b, e).Ok?
    ensures Get(LoadEntry(codec, b, e).bundle, s)
         == if e.name == NameOf(s) then codec.unmarshalItems(e.content).value else Get(b, s)
    ensures e.name == NameOf(s) ==> codec.unmarshalItems(e.content).Some?
  {
    SectionNames(s);
    if e.name == MANIFEST_NAME {
      OtherSections(b, LoadEntry(codec, b, e).bundle);
    } else if SectionNamed(e.name).Some? {
      NamedBack(e.name);
      WithGet(b, SectionNamed(e.name).value, codec.unmarshalItems(e.content).value);
    } else {
      OtherSections(b, LoadEntry(codec, b, e).bundle);
    }
  }

  lemma NamedBack(name: string)
    requires SectionNamed(name).Some?
    ensures NameOf(SectionNamed(name).value) == name
  {}

  // Each section holds what its last entry gives.
  lemma {:induction false} LoadedSection(codec: Codec, entries: seq<Entry>, s: Section)
    requires Load(codec, entries).Ok?
    ensures Get(Load(codec, entries).bundle, s) == LastItems(codec, entries, s)
  {
    if entries != [] {
      var n := |entries| - 1;
      LoadedSection(codec, entries[..n], s);
      EntrySets(codec, Load(codec, entries[..n]).bundle, entries[n], s);
    }
  }

  function FileIn(b: Bundle, name: string): Option<Bytes> {
    if name in b.files then Some(b.files[name]) else None
  }

  lemma EntryFiles(codec: Codec, b: Bundle, e: Entry, name: string)
    requires LoadEntry(codec, b, e).Ok? && name != ""
    ensures FileIn(LoadEntry(codec, b, e).bundle, name)
         == if e.name == FOLDER_PREFIX + name then Some(e.content) else FileIn(b, name)
  {
    forall s: Section, items: seq<Item> {
      WithGet(b, s, items);
    }
    FolderNames(e.name, name);
  }

  lemma FolderNames(entry: string, name: string)
    requires name != ""
    ensures entry == FOLDER_PREFIX + name <==> InFolder(entry) && entry[|FOLDER_PREFIX|..] == name
    ensures entry == FOLDER_PREFIX + name ==> SectionNamed(entry).None? && entry != MANIFEST_NAME
  {
    if InFolder(entry) {
      assert entry == entry[..|FOLDER_PREFIX|] + entry[|FOLDER_PREFIX|..];
    }
    assert (FOLDER_PREFIX + name)[0] == 'f' && (FOLDER_PREFIX + name)[|FOLDER_PREFIX|..] == name;
    assert MANIFEST_NAME[0] == 'm';
    forall s: Section {
      SectionNames(s);
    }
  }

  // Each file under the folder holds the content of its last entry.
  lemma {:induction false} LoadedFile(codec: Codec, entries: seq<Entry>, name: string)
    requires Load(codec, entries).Ok? && name != ""
    ensures FileIn(Load(codec, entries).bundle, name) == LastContent(entries, FOLDER_PREFIX + name)
  {
    if entries != [] {
      var n := |entries| - 1;
      LoadedFile(codec, entries[..n], name);
      EntryFiles(codec, Load(codec, entries[..n]).bundle, entries[n], name);
    }
  }

  // What the last manifest entry to give a field gives for it.
  function LastGiven(codec: Codec, entries: seq<Entry>, f: string): string {
    if entries == [] then ZERO
    else
      var n := |entries| - 1;
      var text := codec.unmarshalManifest(entries[n].content);
      if entries[n].name == MANIFEST_NAME && text.Some? && f in text.value then text.value[f]
      else LastGiven(codec, entries[..n], f)
  }

  // Over all manifest entries of a file, each field keeps the last value given for it.
  lemma {:induction false} LoadedField(codec: Codec, entries: seq<Entry>, f: string)
    requires Load(codec, entries).Ok?
    ensures FieldOf(Load(codec, entries).bundle.manifest, f) == LastGiven(codec, entries, f)
  {
    if entries != [] {
      var n := |entries| - 1;
      LoadedField(codec, entries[..n], f);
      if entries[n].name != MANIFEST_NAME {
        OtherEntriesKeepManifest(codec, Load(codec, entries[..n]).bundle, entries[n]);
      }
    }
  }

  lemma OtherEntriesKeepManifest(codec: Codec, b: Bundle, e: Entry)
    requires LoadEntry(codec, b, e).Ok? && e.name != MANIFEST_NAME
    ensures LoadEntry(codec, b, e).bundle.manifest == b.manifest
  {
    forall s: Section, items: seq<Item> {
      WithGet(b, s, items);
    }
  }

  // ---- Round trip ----

  predicate CleanFiles(b: Bundle) {
    forall name :: name in b.files ==> IsClean(name)
  }

  lemma SectionNames(s: Section)
    ensures SectionNamed(NameOf(s)) == Some(s) && NameOf(s) != MANIFEST_NAME && NameOf(s)[0] == 'd'
  {
    assert NameOf(Benchmarks)[5] == 'b' && NameOf(Benchmarks)[6] == 'e' && NameOf(Baselines)[6] == 'a';
    assert NameOf(Workloads)[5] == 'w' && NameOf(RunProfiles)[5] == 'r';
    assert NameOf(InfraProfiles)[5] == 'i' && NameOf(Logs)[5] == 'l';
    assert MANIFEST_NAME[0] == 'm';
  }

  lemma FileNames(name: string)
    requires IsClean(name)
    ensures EntryName(name) == FOLDER_PREFIX + name && EntryName(name)[0] == 'f'
    ensures SectionNamed(EntryName(name)).None? && EntryName(name) != MANIFEST_NAME
    ensures InFolder(EntryName(name)) && EntryName(name)[|FOLDER_PREFIX|..] == name
  {
    EntryNameKeepsExactlyClean(name);
    EmptyNotClean();
    assert MANIFEST_NAME[0] == 'm';
    SectionNames(Benchmarks);
    SectionNames(Baselines);
    SectionNames(Workloads);
    SectionNames(RunProfiles);
    SectionNames(InfraProfiles);
    SectionNames(Logs);
  }

  // A part of a bundle that has an entry of its own.
  datatype Part = TheManifest | OneSection(s: Section) | OneFile(name: string)

  predicate Has(b: Bundle, part: Part) {
    match part
    case TheManifest => true
    case OneSection(s) => Get(b, s) != []
    case OneFile(name) => name in b.files
  }

  function EntryOf(codec: Codec, b: Bundle, part: Part): Entry
    requires Has(b, part)
  {
    match part
    case TheManifest => ManifestEntry(codec, b)
    case OneSection(s) => SectionEntry(codec, b, s)
    case OneFile(name) => FileEntry(name, b.files[name])
  }

  function WithPart(p: Bundle, b: Bundle, part: Part): Bundle
    requires Has(b, part)
  {
    match part
    case TheManifest => p.(manifest := b.manifest)
    case OneSection(s) => With(p, s, Get(b, s))
    case OneFile(name) => p.(files := p.files[name := b.files[name]])
  }

  lemma ReadPart(codec: Codec, p: Bundle, b: Bundle, part: Part)
    requires Lawful(codec) && CleanFiles(b) && Has(b, part) && (p.manifest == NO_MANIFEST || p.manifest == b.manifest)
    ensures LoadEntry(codec, p, EntryOf(codec, b, part)) == Ok(WithPart(p, b, part))
  {
    match part {
      case TheManifest =>
        GivenTwice(p.manifest, b.manifest, codec.unmarshalManifest(codec.marshalManifest(b.manifest)).value);
      case OneSection(s) => SectionNames(s);
      case OneFile(name) => FileNames(name);
    }
  }

  lemma PartsDiffer(codec: Codec, b: Bundle, x: Part, y: Part)
    requires CleanFiles(b) && Has(b, x) && Has(b, y) && EntryOf(codec, b, x) == EntryOf(codec, b, y)
    ensures x == y
  {
    PartName(codec, b, x);
    PartName(codec, b, y);
  }

  function PartNamed(name: string): Part {
    if name == MANIFEST_NAME then TheManifest
    else if SectionNamed(name).Some? then OneSection(SectionNamed(name).value)
    else OneFile(if InFolder(name) then name[|FOLDER_PREFIX|..] else "")
  }

  lemma PartName(codec: Codec, b: Bundle, x: Part)
    requires CleanFiles(b) && Has(b, x)
    ensures PartNamed(EntryOf(codec, b, x).name) == x
  {
    match x {
      case TheManifest =>
      case OneSection(s) => SectionNames(s);
      case OneFile(name) => FileNames(name);
    }
  }

  // p holds the parts of b that have been read.
  ghost predicate Reflects(p: Bundle, b: Bundle, read: set<Part>) {
    && p.manifest == (if TheManifest in read then b.manifest else NO_MANIFEST)
    && (forall s :: Get(p, s) == if OneSection(s) in read then Get(b, s) else [])
    && (forall name :: name in p.files <==> OneFile(name) in read)
    && (forall name :: name in p.files ==> name in b.files && p.files[name] == b.files[name])
  }

  lemma WithGet(b: Bundle, s: Section, items: seq<Item>)
    ensures forall s' :: Get(With(b, s, items), s') == if s == s' then items else Get(b, s')
    ensures With(b, s, items).manifest == b.manifest && With(b, s, items).files == b.files
  {}

  lemma PartReflects(p: Bundle, b: Bundle, read: set<Part>, part: Part)
    requires Reflects(p, b, read) && Has(b, part)
    ensures Reflects(WithPart(p, b, part), b, read + {part})
  {
    if part.OneSection? {
      WithGet(p, part.s, Get(b, part.s));
    } else {
      OtherSections(p, WithPart(p, b, part));
    }
  }

  lemma OtherSections(p: Bundle, next: Bundle)
    requires next == p.(manifest := next.manifest, files := next.files)
    ensures forall s :: Get(next, s) == Get(p, s)
  {}

  lemma ExpectedPart(codec: Codec, b: Bundle, e: Entry) returns (part: Part)
    requires Expected(codec, b, e)
    ensures Has(b, part) && e == EntryOf(codec, b, part)
  {
    if e == ManifestEntry(codec, b) {
      part := TheManifest;
    } else if name :| name in b.files && e == FileEntry(name, b.files[name]) {
      part := OneFile(name);
    } else {
      var s: Section :| Get(b, s) != [] && e == SectionEntry(codec, b, s);
      part := OneSection(s);
    }
  }

  lemma {:induction false} LoadReflects(codec: Codec, entries: seq<Entry>, b: Bundle) returns (read: set<Part>)
    requires Lawful(codec) && CleanFiles(b) && forall e :: e in entries ==> Expected(codec, b, e)
    ensures Load(codec, entries).Ok? && Reflects(Load(codec, entries).bundle, b, read)
    ensures forall e :: e in entries ==> exists part :: part in read && Has(b, part) && e == EntryOf(codec, b, part)
  {
    if entries == [] {
      read := {};
    } else {
      var front, e := entries[..|entries| - 1], entries[|entries| - 1];
      assert entries == front + [e];
      read := LoadReflects(codec, front, b);
      var part := ExpectedPart(codec, b, e);
      ReadPart(codec, Load(codec, front).bundle, b, part);
      PartReflects(Load(codec, front).bundle, b, read, part);
      read := read + {part};
    }
  }

  lemma WrittenIsRead(codec: Codec, b: Bundle, entries: seq<Entry>, read: set<Part>, part: Part)
    requires CleanFiles(b) && Writes(codec, entries, b) && Has(b, part)
    requires forall e :: e in entries ==> exists part :: part in read && Has(b, part) && e == EntryOf(codec, b, part)
    ensures part in read
  {
    var e := EntryOf(codec, b, part);
    assert Expected(codec, b, e);
    var other :| other in read && Has(b, other) && e == EntryOf(codec, b, other);
    PartsDiffer(codec, b, part, other);
  }

  // Loading the entries of a bundle with clean file names, in whatever order they
  // come, gives the bundle back.
  lemma RoundTrip(codec: Codec, b: Bundle, entries: seq<Entry>)
    requires Lawful(codec) && CleanFiles(b) && Writes(codec, entries, b)
    ensures Load(codec, entries) == Ok(b)
  {
    var read := LoadReflects(codec, entries, b);
    var p := Load(codec, entries).bundle;
    WrittenIsRead(codec, b, entries, read, TheManifest);
    forall s: Section
      ensures Get(p, s) == Get(b, s)
    {
      if Get(b, s) != [] {
        WrittenIsRead(codec, b, entries, read, OneSection(s));
      }
    }
    forall name | name in b.files
      ensures name in p.files
    {
      WrittenIsRead(codec, b, entries, read, OneFile(name));
    }
    assert p.files == b.files;
    SameSections(p, b);
  }

  lemma {:induction false} LoadedFiles(codec: Codec, entries: seq<Entry>, name: string)
    requires Load(codec, entries).Ok? && name in Load(codec, entries).bundle.files
    ensures name != "" && exists e :: e in entries && e.name == FOLDER_PREFIX + name
  {
    var front, e := entries[..|entries| - 1], entries[|entries| - 1];
    assert entries == front + [e];
    if name in Load(codec, front).bundle.files {
      LoadedFiles(codec, front, name);
    } else {
      LoadedNow(codec, Load(codec, front).bundle, e, name);
      assert e in entries;
    }
  }

  lemma LoadedNow(codec: Codec, p: Bundle, e: Entry, name: string)
    requires LoadEntry(codec, p, e).Ok? && name in LoadEntry(codec, p, e).bundle.files && name !in p.files
    ensures name != "" && e.name == FOLDER_PREFIX + name
  {
    forall s: Section, items: seq<Item>
      ensures With(p, s, items).files == p.files
    {
      WithGet(p, s, items);
    }
    assert e.name == e.name[..|FOLDER_PREFIX|] + e.name[|FOLDER_PREFIX|..];
  }

  // A file under any other name does not come back.
  lemma UncleanIsLost(codec: Codec, b: Bundle, entries: seq<Entry>, name: string)
    requires Writes(codec, entries, b) && Load(codec, entries).Ok? && name in b.files && !IsClean(name)
    ensures name !in Load(codec, entries).bundle.files
  {
    if name in Load(codec, entries).bundle.files {
      LoadedFiles(codec, entries, name);
      var e :| e in entries && e.name == FOLDER_PREFIX + name;
      var part := ExpectedPart(codec, b, e);
      PrefixMeansFile(codec, b, part, name);
      EntriesAreClean(part.name, name);
    }
  }

  lemma PrefixMeansFile(codec: Codec, b: Bundle, part: Part, suffix: string)
    requires Has(b, part) && EntryOf(codec, b, part).name == FOLDER_PREFIX + suffix
    ensures part.OneFile? && EntryName(part.name) == FOLDER_PREFIX + suffix
  {
    assert (FOLDER_PREFIX + suffix)[0] == 'f' && MANIFEST_NAME[0] == 'm';
    forall s: Section
      ensures NameOf(s)[0] == 'd'
    {
      SectionNames(s);
    }
  }

  // A written bundle comes back whole exactly when its file names are clean.
  lemma RoundTripExactlyWhen(codec: Codec, b: Bundle, entries: seq<Entry>)
    requires Lawful(codec) && Writes(codec, entries, b)
    ensures Load(codec, entries) == Ok(b) <==> CleanFiles(b)
  {
    if CleanFiles(b) {
      RoundTrip(codec, b, entries);
    } else if Load(codec, entries).Ok? {
      var name :| name in b.files && !IsClean(name);
      UncleanIsLost(codec, b, entries, name);
    }
  }

  lemma SameSections(p: Bundle, b: Bundle)
    requires p.manifest == b.manifest && p.files == b.files && forall s :: Get(p, s) == Get(b, s)
    ensures p == b
  {
    assert Get(p, Benchmarks) == Get(b, Benchmarks) && Get(p, Baselines) == Get(b, Baselines);
    assert Get(p, Workloads) == Get(b, Workloads) && Get(p, RunProfiles) == Get(b, RunProfiles);
    assert Get(p, InfraProfiles) == Get(b, InfraProfiles) && Get(p, Logs) == Get(b, Logs);
  }
}
