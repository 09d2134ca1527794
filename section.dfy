/**
 * A configuration section: a named node of the configuration tree whose
 * data is the merge of every YAML file found for it under the overlay
 * roots, and whose child sections are created on first access.
 * The file system (glob), the YAML parser and the process root directory
 * are the inputs collected in `Io`.
 */
module ConfigSection {
  import opened Wrappers
  import opened PhpStrings
  import opened PhpArrays
  import opened YamlErrors

  /** What yaml_parse_file does with one file: a document, or a raised error. */
  datatype ParseResult = Parsed(value: Value) | Raised(error: Exception)

  /** The process root, glob() over a brace pattern, and the YAML file parser. */
  datatype Io = Io(zeroRoot: string, glob: string -> seq<string>, parseFile: string -> ParseResult)

  /**
   * Why a section could not be built: a file that parsed to false, a parser
   * error remapped by the constructor's catch, or another exception raised
   * during the parse, which that catch lets through unchanged.
   */
  datatype LoadError =
    | UnableToReadConfigFile(path: string)
    | YamlError(derivation: Derivation)
    | Propagated(error: Exception)

  /** The process the sections share: its root directory, file system and parser. */
  class Runtime {
    const io: Io

    constructor (io: Io)
      ensures this.io == io
    {
      this.io := io;
    }
  }

  predicate EndsIn(s: string, x: string) { |x| <= |s| && s[|s| - |x|..] == x }

  /**
   * The glob pattern for the YAML files `sub` below every overlay root: the
   * roots as one brace alternation, then `sub`, then the `default` and
   * environment file names, with or without a prefix, as `.yml` or `.yaml`.
   */
  function GlobPattern(paths: seq<string>, sub: string, env: string): (r: string)
    ensures var roots := Implode(",", paths);
      |roots| + 2 <= |r| && r[0] == '{' && r[1..|roots| + 1] == roots && r[|roots| + 1] == '}'
    ensures EndsIn(r, sub + "/{*-,}{default," + env + "}.y{a,}ml")
    ensures forall k :: 0 <= k < |paths| ==> Contains(r, paths[k])
  {
    var roots := Implode(",", paths);
    var names := sub + "/{*-,}{default," + env + "}.y{a,}ml";
    Braced(roots, names);
    forall k | 0 <= k < |paths| ensures Contains("{" + roots + "}" + names, paths[k]) {
      ImplodeHasPart(",", paths, k);
      ContainsInside("{", roots, "}", names, paths[k]);
    }
    "{" + roots + "}" + names
  }

  /** The shape of a brace group followed by file names. */
  lemma Braced(roots: string, names: string)
    ensures var r := "{" + roots + "}" + names;
      |roots| + 2 <= |r| && r[0] == '{' && r[1..|roots| + 1] == roots && r[|roots| + 1] == '}'
      && EndsIn(r, names)
  {
  }

  /** An occurrence in the middle part is an occurrence in the whole. */
  lemma ContainsInside(a: string, b: string, c: string, d: string, x: string)
    requires Contains(b, x)
    ensures Contains(a + b + c + d, x)
  {
    var i :| 0 <= i <= |b| - |x| && OccursAt(b, x, i);
    var r := a + b + c + d;
    assert r[|a| + i..|a| + i + |x|] == b[i..i + |x|];
    assert OccursAt(r, x, |a| + i);
  }

  /** The section's own files: `sub` is empty. */
  const OwnFiles := ""
  /** The files of the sections one level below: every sub-directory. */
  const ChildSectionFiles := "/*"

  /** The overlay roots of a child: every parent root followed by `/name`. */
  function ChildPaths(paths: seq<string>, name: string): seq<string> {
    seq(|paths|, i requires 0 <= i < |paths| => paths[i] + "/" + name)
  }

  /** substr($file, strlen(ZERO_ROOT)): the file name past the root's length. */
  function RelativePath(file: string, zeroRoot: string): (r: string)
    ensures zeroRoot <= file ==> file == zeroRoot + r
  {
    if |zeroRoot| <= |file| then file[|zeroRoot|..] else ""
  }

  // ----- loading the files of a section -----

  /** A parse that stops the load: a raised error, or the value false. */
  predicate Stops(p: ParseResult) {
    p.Raised? || p == Parsed(Bool(false))
  }

  /** The entries a parse result contributes: those of an array document, none otherwise. */
  function Doc(p: ParseResult): PArray {
    if p.Parsed? && p.value.Arr? then p.value.entries else []
  }

  /** The index of the first file whose parse stops the load, or |files|. */
  function StopAt(files: seq<string>, io: Io): (i: nat)
    ensures i <= |files|
    ensures forall j :: 0 <= j < i ==> !Stops(io.parseFile(files[j]))
    ensures i < |files| ==> Stops(io.parseFile(files[i]))
    decreases |files|
  {
    if files == [] || Stops(io.parseFile(files[0])) then 0 else 1 + StopAt(files[1..], io)
  }

  lemma StopAtIsFirst(files: seq<string>, io: Io, k: nat)
    requires k <= |files|
    requires forall j :: 0 <= j < k ==> !Stops(io.parseFile(files[j]))
    requires k < |files| ==> Stops(io.parseFile(files[k]))
    ensures StopAt(files, io) == k
  {
  }

  /**
   * The left-to-right array_merge of the array documents of `files`: it has
   * distinct keys and integer keys 0, 1, 2, ...
   */
  function Merged(files: seq<string>, io: Io): (r: PArray)
    ensures Normal(r)
    decreases |files|
  {
    if files == [] then []
    else
      var prev := Merged(files[..|files| - 1], io);
      var p := io.parseFile(files[|files| - 1]);
      if p.Parsed? && p.value.Arr? then ArrayMerge(prev, p.value.entries) else prev
  }

  /** The error a stopping parse turns into. */
  function StopError(file: string, io: Io): (err: LoadError)
    ensures var p := io.parseFile(file);
      && (err.YamlError? <==> p.Raised? && p.error.kind == ErrorException)
      && (err.Propagated? ==> p.Raised? && err.error == p.error)
      && (err.UnableToReadConfigFile? <==> p.Parsed?)
  {
    match io.parseFile(file)
    case Raised(e) => if e.kind == ErrorException then YamlError(Derive(e)) else Propagated(e)
    case Parsed(_) => UnableToReadConfigFile(RelativePath(file, io.zeroRoot))
  }

  /** The data of a section built from `files`, or the error that stopped it. */
  function Loaded(files: seq<string>, io: Io): (r: Result<PArray, LoadError>)
    ensures r.Failure? ==> exists j :: 0 <= j < |files| && Stops(io.parseFile(files[j])) && r.error == StopError(files[j], io)
  {
    var i := StopAt(files, io);
    if i < |files| then Failure(StopError(files[i], io)) else Success(Merged(files, io))
  }

  /** The files appended to the log: all of them, or those up to and including the one that stopped the load. */
  function Logged(files: seq<string>, io: Io): (r: seq<string>)
    ensures r <= files
  {
    var i := StopAt(files, io);
    if i < |files| then files[..i + 1] else files
  }

  /** The shared, append-only list of loaded files. */
  class FileLog {
    var files: seq<string>

    constructor ()
      ensures files == []
    {
      files := [];
    }

    method Append(f: string)
      modifies this
      ensures files == old(files) + [f]
    {
      files := files + [f];
    }
  }

  /**
   * The loop of the section constructor: log each file, parse it, stop on
   * an error or on false, and merge every array document into the data.
   */
  method LoadFiles(files: seq<string>, io: Io, log: FileLog?) returns (r: Result<PArray, LoadError>)
    modifies log
    ensures r == Loaded(files, io)
    ensures log != null ==> log.files == old(log.files) + Logged(files, io)
  {
    var combined: PArray := [];
    var k := 0;
    while k < |files|
      invariant 0 <= k <= |files|
      invariant k <= StopAt(files, io)
      invariant combined == Merged(files[..k], io)
      invariant log != null ==> log.files == old(log.files) + files[..k]
    {
      var file := files[k];
      if log != null {
        LogStep(old(log.files), files, k);
        log.Append(file);
      }
      var next := MergeNext(files, io, k, combined);
      if next.Failure? {
        return next;
      }
      combined := next.value;
      k := k + 1;
    }
    LoadedAll(files, io);
    return Success(combined);
  }

  /** Appending the `k`-th file to a log of the files before it. */
  lemma LogStep(start: seq<string>, files: seq<string>, k: nat)
    requires k < |files|
    ensures start + files[..k] + [files[k]] == start + files[..k + 1]
  {
    assert files[..k + 1] == files[..k] + [files[k]];
  }

  /** When no file stops the load, every file is logged and the data is the whole merge. */
  lemma LoadedAll(files: seq<string>, io: Io)
    requires StopAt(files, io) >= |files|
    ensures Loaded(files, io) == Success(Merged(files[..|files|], io))
    ensures Logged(files, io) == files[..|files|]
  {
    assert files[..|files|] == files;
  }

  /** One round of the loop: parse the `k`-th file and merge it into the data so far, or stop. */
  method MergeNext(files: seq<string>, io: Io, k: nat, combined: PArray) returns (r: Result<PArray, LoadError>)
    requires k < |files| && k <= StopAt(files, io) && combined == Merged(files[..k], io)
    ensures r.Failure? <==> StopAt(files, io) == k
    ensures r.Failure? ==> r == Loaded(files, io) && Logged(files, io) == files[..k + 1]
    ensures r.Success? ==> r.value == Merged(files[..k + 1], io)
  {
    var stop := ParseChecked(files[k], io);
    if stop.Some? {
      StoppedAt(files, io, k);
      assert files[..k + 1] == files[..k] + [files[k]];
      return Failure(stop.value);
    }
    MergedStep(files, io, k);
    var p := io.parseFile(files[k]);
    if p.value.Arr? {
      return Success(ArrayMerge(combined, p.value.entries));
    }
    return Success(combined);
  }

  /** The try block around one parse: the error a stopping parse raises, if any. */
  method ParseChecked(file: string, io: Io) returns (stop: Option<LoadError>)
    ensures stop.Some? <==> Stops(io.parseFile(file))
    ensures stop.Some? ==> stop.value == StopError(file, io)
  {
    match io.parseFile(file) {
      case Raised(e) =>
        if e.kind == ErrorException {
          var d := DeriveFromError(e);
          return Some(YamlError(d));
        }
        return Some(Propagated(e));
      case Parsed(v) =>
        if v == Bool(false) {
          return Some(UnableToReadConfigFile(RelativePath(file, io.zeroRoot)));
        }
        return None;
    }
  }

  /** The outcome when the `k`-th file is the first to stop the load. */
  lemma StoppedAt(files: seq<string>, io: Io, k: nat)
    requires k < |files| && k <= StopAt(files, io)
    requires Stops(io.parseFile(files[k]))
    ensures Loaded(files, io) == Failure(StopError(files[k], io))
    ensures Logged(files, io) == files[..k] + [files[k]]
  {
    assert files[..k + 1] == files[..k] + [files[k]];
  }

  /** Merging one more file's document. */
  lemma MergedStep(files: seq<string>, io: Io, k: nat)
    requires k < |files|
    ensures var p := io.parseFile(files[k]);
      Merged(files[..k + 1], io) ==
        if p.Parsed? && p.value.Arr? then ArrayMerge(Merged(files[..k], io), p.value.entries)
        else Merged(files[..k], io)
  {
    assert files[..k + 1][..k] == files[..k];
  }

  /** The load succeeds exactly when no file's parse stops it. */
  lemma LoadedSucceeds(files: seq<string>, io: Io)
    ensures Loaded(files, io).Success? <==> forall j :: 0 <= j < |files| ==> !Stops(io.parseFile(files[j]))
  {
  }

  /**
   * The log is a prefix of the file list; when the load fails it ends with
   * the file that stopped it, and that file's error is the one raised.
   */
  lemma LoggedOnFailure(files: seq<string>, io: Io)
    ensures var logged := Logged(files, io);
      |logged| <= |files| && logged == files[..|logged|]
    ensures Loaded(files, io).Failure? ==>
      var logged := Logged(files, io);
      |logged| > 0 && Stops(io.parseFile(logged[|logged| - 1]))
      && Loaded(files, io).error == StopError(logged[|logged| - 1], io)
  {
  }

  /** The index of the last file whose document has the string key `s`, or -1. */
  function LastFileWith(files: seq<string>, io: Io, s: string): (j: int)
    ensures -1 <= j < |files|
    ensures j >= 0 ==> LastLookup(Doc(io.parseFile(files[j])), StrKey(s)).Some?
    ensures forall i :: j < i < |files| ==> LastLookup(Doc(io.parseFile(files[i])), StrKey(s)).None?
    decreases |files|
  {
    if files == [] then -1
    else if LastLookup(Doc(io.parseFile(files[|files| - 1])), StrKey(s)).Some? then |files| - 1
    else LastFileWith(files[..|files| - 1], io, s)
  }

  /**
   * A string key of the merged data holds the value the last file that
   * defines it gives it: later files win, and files whose document is not
   * an array contribute nothing.
   */
  lemma {:induction false} MergedStrKey(files: seq<string>, io: Io, s: string)
    ensures var j := LastFileWith(files, io, s);
      Lookup(Merged(files, io), StrKey(s)) ==
        if j < 0 then None else LastLookup(Doc(io.parseFile(files[j])), StrKey(s))
    decreases |files|
  {
    if files != [] {
      var init := files[..|files| - 1];
      var prev := Merged(init, io);
      MergedStrKey(init, io, s);
      DistinctLookup(prev, StrKey(s));
      var p := io.parseFile(files[|files| - 1]);
      if p.Parsed? && p.value.Arr? {
        ArrayMergeStrKey(prev, p.value.entries, s);
      }
      var j := LastFileWith(init, io, s);
      assert forall i :: 0 <= i < |init| ==> init[i] == files[i];
    }
  }

  /** The integer-keyed values of the documents of `files`, in order. */
  function AllIntValues(files: seq<string>, io: Io): seq<Value>
    decreases |files|
  {
    if files == [] then []
    else AllIntValues(files[..|files| - 1], io) + IntValues(Doc(io.parseFile(files[|files| - 1])))
  }

  /** Integer-keyed entries are never overwritten: every file's list items are appended in order. */
  lemma {:induction false} MergedIntValues(files: seq<string>, io: Io)
    ensures IntValues(Merged(files, io)) == AllIntValues(files, io)
    decreases |files|
  {
    if files != [] {
      var init := files[..|files| - 1];
      MergedIntValues(init, io);
      var p := io.parseFile(files[|files| - 1]);
      if p.Parsed? && p.value.Arr? {
        ArrayMergeInts(Merged(init, io), p.value.entries);
      }
    }
  }

  // ----- the section -----

  /** array_map('basename', array_map('dirname', hits)). */
  function SectionNames(hits: seq<string>): (names: seq<string>)
    ensures |names| == |hits| && forall i :: 0 <= i < |hits| ==> names[i] == Basename(Dirname(hits[i]))
  {
    seq(|hits|, i requires 0 <= i < |hits| => Basename(Dirname(hits[i])))
  }

  /** A name that selects a child section: its first character is an upper-case letter. */
  predicate IsSectionName(n: string)
    ensures IsSectionName(n) ==> n != [] && IsAlpha(n[0]) && !IsDigit(n[0]) && n[0] != '-'
  {
    |n| > 0 && 'A' <= n[0] <= 'Z'
  }

  /** What `$section->name` yields: a child section or a data value. */
  datatype Member = Child(section: Section) | Data(value: Value)

  class Section {
    /** The parent section, or null when the parent is the root configuration. */
    const parent: Section?
    /** The parent's overlay roots (its getPath()). */
    const parentPath: seq<string>
    const name: string
    const env: string
    const log: FileLog?
    const runtime: Runtime
    var data: PArray
    var sections: map<string, Section>

    /** This section's overlay roots, as getPath() computes them. */
    function Path(): seq<string> {
      ChildPaths(parentPath, name)
    }

    /** The files a child section named `n` loads. */
    function ChildFiles(n: string): seq<string> {
      runtime.io.glob(GlobPattern(ChildPaths(Path(), n), OwnFiles, env))
    }

    /** Every cached child section belongs to this section, under its own name. */
    predicate Valid()
      reads this
    {
      forall n :: n in sections ==>
        && sections[n].parent == this
        && sections[n].name == n
        && sections[n].env == env
        && sections[n].log == log
        && sections[n].runtime == runtime
        && sections[n].parentPath == Path()
    }

    constructor Init(parent: Section?, parentPath: seq<string>, name: string, env: string, log: FileLog?, runtime: Runtime)
      ensures this.parent == parent && this.parentPath == parentPath && this.name == name
      ensures this.env == env && this.log == log && this.runtime == runtime
      ensures data == [] && sections == map[]
    {
      this.parent := parent;
      this.parentPath := parentPath;
      this.name := name;
      this.env := env;
      this.log := log;
      this.runtime := runtime;
      data := [];
      sections := map[];
    }

    /**
     * The section constructor: glob the section's files under every
     * overlay root, log and load them in glob order; a failing file makes
     * the construction fail.
     */
    static method Create(parent: Section?, parentPath: seq<string>, name: string, env: string, log: FileLog?, runtime: Runtime)
      returns (r: Result<Section, LoadError>)
      modifies log
      ensures var io := runtime.io;
        var files := io.glob(GlobPattern(ChildPaths(parentPath, name), OwnFiles, env));
        && (log != null ==> log.files == old(log.files) + Logged(files, io))
        && match r
           case Failure(e) => Loaded(files, io) == Failure(e)
           case Success(s) =>
             && fresh(s) && Loaded(files, io) == Success(s.data)
             && s.parent == parent && s.parentPath == parentPath && s.name == name
             && s.env == env && s.log == log && s.runtime == runtime && s.sections == map[]
    {
      var io := runtime.io;
      var s := new Section.Init(parent, parentPath, name, env, log, runtime);
      var paths := s.GetPath();
      var files := io.glob(GlobPattern(paths, OwnFiles, env));
      var loaded := LoadFiles(files, io, log);
      match loaded {
        case Failure(e) => return Failure(e);
        case Success(d) =>
          s.data := d;
          return Success(s);
      }
    }

    /** getPath(): the parent's overlay roots, each extended in place by `/name`. */
    method GetPath() returns (p: seq<string>)
      ensures |p| == |parentPath|
      ensures forall i :: 0 <= i < |p| ==> p[i] == parentPath[i] + "/" + name
      ensures p == Path()
    {
      p := parentPath;
      var i := 0;
      while i < |p|
        invariant 0 <= i <= |p| == |parentPath|
        invariant forall j :: 0 <= j < i ==> p[j] == parentPath[j] + "/" + name
        invariant forall j :: i <= j < |p| ==> p[j] == parentPath[j]
      {
        p := p[i := p[i] + "/" + name];
        i := i + 1;
      }
    }

    /** getValue(name): the value of the first entry of the name's key, or null. */
    function GetValue(n: string): (r: Value)
      reads this
      ensures (forall i :: 0 <= i < |data| ==> data[i].0 != KeyOf(n)) ==> r == Null
      ensures forall i :: (0 <= i < |data| && data[i].0 == KeyOf(n)
        && forall j :: 0 <= j < i ==> data[j].0 != KeyOf(n)) ==> r == data[i].1
    {
      OrNull(Lookup(data, KeyOf(n)))
    }

    /**
     * __get(name): an upper-case first letter selects the child section,
     * built on first access and cached (nothing is cached when building
     * fails); any other name reads the data.
     */
    method Get(n: string) returns (r: Result<Member, LoadError>)
      modifies this, log
      ensures old(Valid()) ==> Valid()
      ensures IsSectionName(n) && n !in old(sections) && r.Success? && r.value.Child? ==> r.value.section.Valid()
      ensures data == old(data)
      ensures !IsSectionName(n) || n in old(sections) ==>
        && sections == old(sections)
        && (log != null ==> log.files == old(log.files))
      ensures !IsSectionName(n) ==> r == Success(Data(GetValue(n)))
      ensures IsSectionName(n) && n in old(sections) ==> r == Success(Child(old(sections)[n]))
      ensures IsSectionName(n) && n !in old(sections) ==>
        var files := ChildFiles(n);
        && (log != null ==> log.files == old(log.files) + Logged(files, runtime.io))
        && match r
           case Failure(e) => Loaded(files, runtime.io) == Failure(e) && sections == old(sections)
           case Success(m) =>
             && m.Child? && fresh(m.section)
             && sections == old(sections)[n := m.section]
             && Loaded(files, runtime.io) == Success(m.section.data)
             && m.section.sections == map[]
             && m.section.parent == this && m.section.name == n && m.section.parentPath == Path()
             && m.section.env == env && m.section.log == log && m.section.runtime == runtime
    {
      if IsSectionName(n) {
        if n in sections {
          return Success(Child(sections[n]));
        }
        var c := Create(this, Path(), n, env, log, runtime);
        match c {
          case Failure(e) => return Failure(e);
          case Success(s) =>
            sections := sections[n := s];
            return Success(Child(s));
        }
      }
      return Success(Data(GetValue(n)));
    }

    /** Reading the same section name twice gives the same instance, and the second read loads nothing. */
    method GetTwice(n: string) returns (first: Result<Member, LoadError>, second: Result<Member, LoadError>)
      requires IsSectionName(n)
      modifies this, log
      ensures first.Success? ==> second == first
      ensures first.Success? && log != null ==>
        log.files == old(log.files) + if n in old(sections) then [] else Logged(ChildFiles(n), runtime.io)
    {
      first := Get(n);
      second := Get(n);
    }

    /** __set(name, value): `data[name] = value`; nothing else changes. */
    method Set(n: string, v: Value)
      modifies this
      ensures data == Assign(old(data), KeyOf(n), v)
      ensures sections == old(sections)
      ensures Valid() == old(Valid())
      ensures GetValue(n) == v
      ensures forall m :: KeyOf(m) != KeyOf(n) ==> GetValue(m) == old(GetValue(m))
    {
      data := Assign(data, KeyOf(n), v);
      AssignLookup(old(data), KeyOf(n), v, KeyOf(n));
      forall m | KeyOf(m) != KeyOf(n)
        ensures Lookup(data, KeyOf(m)) == Lookup(old(data), KeyOf(m))
      {
        AssignLookup(old(data), KeyOf(n), v, KeyOf(m));
      }
    }

    /** toArray(): the section's data as it is. */
    function ToArray(): (r: PArray)
      reads this
      ensures |r| == |data| && forall i :: 0 <= i < |r| ==> r[i] == data[i]
    {
      data
    }

    /** exists(): there is at least one key with a value. */
    function Exists(): (r: bool)
      reads this
      ensures r <==> exists k :: Lookup(data, k).Some?
    {
      if |data| > 0 then
        assert Lookup(data, data[0].0).Some?;
        true
      else false
    }

    /**
     * sectionsList(): the distinct directory names of the files one level
     * below each overlay root, in glob order of first appearance.
     */
    function SectionsList(): (r: seq<string>)
      reads this
      ensures forall i, j :: 0 <= i < j < |r| ==> r[i] != r[j]
      ensures var hits := runtime.io.glob(GlobPattern(Path(), ChildSectionFiles, env));
        forall x :: x in r <==> exists i :: 0 <= i < |hits| && Basename(Dirname(hits[i])) == x
      ensures InFirstOccurrenceOrder(r, SectionNames(runtime.io.glob(GlobPattern(Path(), ChildSectionFiles, env))))
    {
      var hits := runtime.io.glob(GlobPattern(Path(), ChildSectionFiles, env));
      var names := SectionNames(hits);
      assert forall x :: x in names <==> exists i :: 0 <= i < |hits| && Basename(Dirname(hits[i])) == x by {
        forall x | x in names ensures exists i :: 0 <= i < |hits| && Basename(Dirname(hits[i])) == x {
          var i :| 0 <= i < |names| && names[i] == x;
        }
        forall x | exists i :: 0 <= i < |hits| && Basename(Dirname(hits[i])) == x ensures x in names {
          var i :| 0 <= i < |hits| && Basename(Dirname(hits[i])) == x;
          assert names[i] == x;
        }
      }
      UniqueInOrder(names);
      Unique(names)
    }
  }
}
