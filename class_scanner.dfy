/** `ClassScanner`: finds the resource classes under a directory (class
    files, nested directories and jars) and, from the first class file it
    defines, works out the directory its package tree starts in. */
module ClassScanner {
  import opened Wrappers
  import opened Errors
  import JavaStrings

  /** An entry of a jar: its name (with `/` between segments) and whether
      it is a directory. */
  datatype JarEntry = JarEntry(name: string, isDirectory: bool)

  /** A file under the scanned directory: a directory with its listing, or
      a plain file with the class name the bytecode reader finds in it
      (none when it is not a class file) and, when it is a readable jar,
      its entries. */
  datatype Entry =
    | Directory(name: string, children: seq<Entry>)
    | Plain(name: string, className: Option<string>, jar: Option<seq<JarEntry>>)

  /** The filter of `scanPath`: directories, class files and jars. */
  predicate TopLevelAccepts(e: Entry)
  {
    e.Directory? || JavaStrings.EndsWith(e.name, ".class") || JavaStrings.EndsWith(e.name, ".jar")
  }

  /** The filter of `loadFileClasses`: directories and class files. */
  predicate NestedAccepts(e: Entry)
  {
    e.Directory? || JavaStrings.EndsWith(e.name, ".class")
  }

  /** Below the top level the filter is narrower: it lets through exactly
      what the top-level filter does except the jars that are not also
      class files. */
  lemma {:induction false} FiltersNested(e: Entry)
    ensures NestedAccepts(e) ==> TopLevelAccepts(e)
    ensures TopLevelAccepts(e) && !NestedAccepts(e) <==>
      e.Plain? && JavaStrings.EndsWith(e.name, ".jar") && !JavaStrings.EndsWith(e.name, ".class")
  {
  }

  /** The class name of a jar entry: `/` turned into `.`, and the
      6-character `.class` suffix dropped. */
  function JarClassName(name: string): (r: string)
    requires JavaStrings.EndsWith(name, ".class")
    ensures |r| == |name| - 6
    ensures r == JavaStrings.ReplaceChar(name[..|name| - 6], '/', '.')
  {
    var dotted := JavaStrings.ReplaceChar(name, '/', '.');
    assert dotted[..|name| - 6] == JavaStrings.ReplaceChar(name[..|name| - 6], '/', '.');
    dotted[..|name| - 6]
  }

  /** A class stored in a jar under its package path comes back out under
      its own name. */
  lemma {:induction false} JarClassNameRoundTrip(c: string)
    requires '/' !in c
    ensures JavaStrings.EndsWith(JavaStrings.ReplaceChar(c, '.', '/') + ".class", ".class")
    ensures JarClassName(JavaStrings.ReplaceChar(c, '.', '/') + ".class") == c
  {
    var path := JavaStrings.ReplaceChar(c, '.', '/');
    var name := path + ".class";
    assert name[|name| - 6..] == ".class";
    assert name[..|name| - 6] == path;
    var back := JarClassName(name);
    assert forall i :: 0 <= i < |c| ==> back[i] == c[i];
  }

  /** Whether `loadJarClasses` takes an entry: a `.class` entry that is
      not a directory, whose class the jar's loader finds. */
  predicate Takes(x: JarEntry, loadable: string -> bool)
  {
    JavaStrings.EndsWith(x.name, ".class") && !x.isDirectory && loadable(JarClassName(x.name))
  }

  /** The classes of the entries the loop has taken. */
  function JarClassesOf(entries: seq<JarEntry>, loadable: string -> bool): (r: set<string>)
    ensures forall c :: c in r <==> exists x :: x in entries && Takes(x, loadable) && c == JarClassName(x.name)
  {
    if |entries| == 0 then {}
    else
      var x := entries[|entries| - 1];
      var front := entries[..|entries| - 1];
      assert forall y :: y in entries <==> y in front || y == x;
      JarClassesOf(front, loadable) + (if Takes(x, loadable) then {JarClassName(x.name)} else {})
  }

  /** The classes `loadJarClasses` adds: those of the entries it takes.
      An unreadable jar adds none. */
  function JarClasses(jar: Option<seq<JarEntry>>, loadable: string -> bool): (r: set<string>)
    ensures jar.None? ==> r == {}
    ensures jar.Some? ==> forall c :: c in r <==>
      exists x :: x in jar.value && Takes(x, loadable) && c == JarClassName(x.name)
  {
    if jar.None? then {} else JarClassesOf(jar.value, loadable)
  }

  /** `loadJarClasses`: the entry loop. A class its loader cannot find is
      skipped. */
  method LoadJarClasses(jar: Option<seq<JarEntry>>, loadable: string -> bool, classes: set<string>)
    returns (r: set<string>)
    ensures r == classes + JarClasses(jar, loadable)
  {
    r := classes;
    if jar.None? {
      return;
    }
    var entries := jar.value;
    for i := 0 to |entries|
      invariant r == classes + JarClassesOf(entries[..i], loadable)
    {
      var x := entries[i];
      if JavaStrings.EndsWith(x.name, ".class") && !x.isDirectory {
        var name := JarClassName(x.name);
        if loadable(name) {
          r := r + {name};
        }
      }
      assert entries[..i + 1][..i] == entries[..i];
    }
    assert entries[..|entries|] == entries;
  }

  /** The path of a directory entry's child. */
  function Child(dir: string, name: string, sep: char): string
  {
    dir + [sep] + name
  }

  /** The part of `path` before its last separator; none when it has none
      (where `substring(0, -1)` throws). */
  function ParentDirectory(path: string, sep: char): (r: Option<string>)
    ensures r.None? <==> sep !in path
    ensures r.Some? ==> |r.value| < |path| && path[|r.value|] == sep && path[..|r.value|] == r.value
    ensures r.Some? ==> sep !in path[|r.value| + 1..]
  {
    var i := JavaStrings.LastIndexOf(path, [sep]);
    assert forall j :: i < j < |path| ==> path[j] != sep by {
      forall j | i < j < |path|
        ensures path[j] != sep
      {
        assert !JavaStrings.OccursAt(path, [sep], j);
        assert path[j..j + 1] == [path[j]];
      }
    }
    if i < 0 then
      None
    else
      assert path[i..i + 1] == [sep];
      assert path[i] == sep;
      Some(path[..i])
  }

  /** Lines 206-208 as written: the class's package as a directory path.
      A class in the default package has no separator in it, and the
      `substring(0, -1)` throws. */
  function PackageDirectoryAsWritten(className: string, sep: char): (r: Result<string, Error>)
    ensures r.Err? <==> sep !in JavaStrings.ReplaceChar(className, '.', sep)
  {
    var parent := ParentDirectory(JavaStrings.ReplaceChar(className, '.', sep), sep);
    if parent.None? then Err(StringIndexOutOfBounds) else Ok(parent.value)
  }

  /** Lines 204-217 as written: the base path the loader is given, none
      when the package directory does not occur in the file's directory. */
  function FixedBaseAsWritten(className: string, absPath: string, sep: char): (r: Result<Option<string>, Error>)
    ensures PackageDirectoryAsWritten(className, sep).Err? ==> r == Err(StringIndexOutOfBounds)
  {
    var pkg := PackageDirectoryAsWritten(className, sep);
    if pkg.Err? then Err(pkg.error)
    else
      var parent := ParentDirectory(absPath, sep);
      if parent.None? then Err(StringIndexOutOfBounds)
      else
        var overlapping := JavaStrings.LastIndexOf(parent.value, pkg.value);
        if overlapping > -1 then Ok(Some(parent.value[..overlapping])) else Ok(None)
  }

  /** A class in the default package, such as `Item` in `/res/Item.class`,
      makes the base-path fix throw, and with it the whole scan. */
  lemma {:induction false} DefaultPackageThrows()
    ensures FixedBaseAsWritten("Item", "/res/Item.class", '/') == Err(StringIndexOutOfBounds)
  {
    assert JavaStrings.ReplaceChar("Item", '.', '/') == "Item";
  }

  /** The package of a class as a directory path: everything before the
      last separator once the dots are separators, and the empty path for
      a class in the default package. */
  function PackageDirectory(className: string, sep: char): (r: string)
    ensures sep in JavaStrings.ReplaceChar(className, '.', sep) ==>
      Ok(r) == PackageDirectoryAsWritten(className, sep)
    ensures sep !in JavaStrings.ReplaceChar(className, '.', sep) ==> r == ""
  {
    var parent := ParentDirectory(JavaStrings.ReplaceChar(className, '.', sep), sep);
    if parent.None? then "" else parent.value
  }

  /** The base-path fix: the file's directory with the last occurrence of
      the package directory and everything after it removed; none when the
      package directory does not occur there. It throws only for a path
      without a separator, which no absolute path is. */
  function FixedBase(className: string, absPath: string, sep: char): (r: Result<Option<string>, Error>)
    ensures r.Err? <==> sep !in absPath
    ensures r.Ok? && r.value.Some? ==>
      var parent := ParentDirectory(absPath, sep).value;
      var pkg := PackageDirectory(className, sep);
      var b := r.value.value;
      && |b| + |pkg| <= |parent| && parent[..|b| + |pkg|] == b + pkg
      && forall j :: |b| < j ==> !JavaStrings.OccursAt(parent, pkg, j)
    ensures r.Ok? && r.value.None? ==>
      forall j :: !JavaStrings.OccursAt(ParentDirectory(absPath, sep).value, PackageDirectory(className, sep), j)
    ensures sep in JavaStrings.ReplaceChar(className, '.', sep) ==> r == FixedBaseAsWritten(className, absPath, sep)
  {
    var pkg := PackageDirectory(className, sep);
    var parent := ParentDirectory(absPath, sep);
    if parent.None? then Err(StringIndexOutOfBounds)
    else
      var p := parent.value;
      var overlapping := JavaStrings.LastIndexOf(p, pkg);
      if overlapping > -1 then
        JavaStrings.OccurrencePrefix(p, pkg, overlapping);
        Ok(Some(p[..overlapping]))
      else
        Ok(None)
  }

  /** For a class in the default package the base path is the directory
      the class file sits in. */
  lemma {:induction false} DefaultPackageBase(className: string, absPath: string, sep: char)
    requires '.' !in className && sep !in className && sep in absPath
    ensures FixedBase(className, absPath, sep) == Ok(Some(ParentDirectory(absPath, sep).value))
  {
    var replaced := JavaStrings.ReplaceChar(className, '.', sep);
    assert replaced == className;
    assert PackageDirectory(className, sep) == "";
    var p := ParentDirectory(absPath, sep).value;
    assert JavaStrings.OccursAt(p, "", |p|);
    assert JavaStrings.LastIndexOf(p, "") == |p|;
    assert p[..|p|] == p;
  }

  /** What a scan has found so far: the classes, whether the base path
      has been fixed, and the base path given to the class loader. */
  datatype Scan = Scan(classes: set<string>, fixed: bool, base: Option<string>)

  /** What a scan hands back: the classes and the loader's base path. */
  datatype Found = Found(classes: set<string>, base: Option<string>)

  /** `defineClass` for a class file whose class is `className`: the class
      is added, and the base path is fixed if this is the first class. */
  function Define(s: Scan, className: string, absPath: string, sep: char): (r: Result<Scan, Error>)
    ensures r.Ok? ==> r.value.classes == s.classes + {className} && r.value.fixed
    ensures s.fixed ==> r == Ok(s.(classes := s.classes + {className}))
  {
    var added := s.(classes := s.classes + {className});
    if s.fixed then Ok(added)
    else
      var fb := FixedBase(className, absPath, sep);
      if fb.Err? then Err(fb.error)
      else if fb.value.Some? then Ok(added.(fixed := true, base := fb.value))
      else Ok(added.(fixed := true))
  }

  /** A file handed to `defineClass`: a file the bytecode reader finds no
      class in is skipped. */
  function DefineFile(s: Scan, path: string, e: Entry, sep: char): Result<Scan, Error>
    requires e.Plain?
  {
    if e.className.None? then Ok(s) else Define(s, e.className.value, path, sep)
  }

  /** `loadFileClasses` at `path`: nothing unless it is a directory, then
      its listing. */
  function LoadFiles(s: Scan, path: string, e: Entry, sep: char): Result<Scan, Error>
    decreases e, 1
  {
    if e.Plain? then Ok(s) else Walk(s, path, e.children, sep)
  }

  /** The loop of `loadFileClasses` over a listing: the accepted entries
      in order, directories recursively, stopping at the first throw. */
  function Walk(s: Scan, dir: string, entries: seq<Entry>, sep: char): Result<Scan, Error>
    decreases entries, 0
  {
    if |entries| == 0 then Ok(s)
    else
      var e := entries[0];
      var r := if !NestedAccepts(e) then Ok(s)
               else if e.Directory? then LoadFiles(s, Child(dir, e.name, sep), e, sep)
               else DefineFile(s, Child(dir, e.name, sep), e, sep);
      if r.Err? then r else Walk(r.value, dir, entries[1..], sep)
  }

  /** The loop of `scanPath` over the top-level listing: directories
      recursively, jars through their entries, class files defined. */
  function Top(s: Scan, dir: string, entries: seq<Entry>, sep: char, loadable: string -> bool): Result<Scan, Error>
    decreases |entries|
  {
    if |entries| == 0 then Ok(s)
    else
      var e := entries[0];
      var r := if !TopLevelAccepts(e) then Ok(s)
               else if e.Directory? then LoadFiles(s, Child(dir, e.name, sep), e, sep)
               else if JavaStrings.EndsWith(e.name, ".jar") then Ok(s.(classes := s.classes + JarClasses(e.jar, loadable)))
               else DefineFile(s, Child(dir, e.name, sep), e, sep);
      if r.Err? then r else Top(r.value, dir, entries[1..], sep, loadable)
  }

  /** `scanPath`: nothing for a path that does not exist or is not a
      directory, otherwise its listing from an empty set of classes. */
  function Scanned(fixed: bool, path: string, root: Option<Entry>, sep: char, loadable: string -> bool): (r: Result<Scan, Error>)
    ensures root.None? || root.value.Plain? ==> r == Ok(Scan({}, fixed, None))
  {
    if root.None? || root.value.Plain? then Ok(Scan({}, fixed, None))
    else Top(Scan({}, fixed, None), path, root.value.children, sep, loadable)
  }

  /** Once the base path is fixed, a walk keeps it: no later class
      changes it, and classes are only ever added. */
  lemma {:induction false} LoadFilesKeepsFixed(s: Scan, path: string, e: Entry, sep: char)
    ensures LoadFiles(s, path, e, sep).Ok? ==>
      s.classes <= LoadFiles(s, path, e, sep).value.classes
      && (s.fixed ==> LoadFiles(s, path, e, sep).value.fixed && LoadFiles(s, path, e, sep).value.base == s.base)
    decreases e, 1
  {
    if e.Directory? {
      WalkKeepsFixed(s, path, e.children, sep);
    }
  }

  lemma {:induction false} WalkKeepsFixed(s: Scan, dir: string, entries: seq<Entry>, sep: char)
    ensures Walk(s, dir, entries, sep).Ok? ==>
      s.classes <= Walk(s, dir, entries, sep).value.classes
      && (s.fixed ==> Walk(s, dir, entries, sep).value.fixed && Walk(s, dir, entries, sep).value.base == s.base)
    decreases entries, 0
  {
    if |entries| > 0 {
      var e := entries[0];
      var path := Child(dir, e.name, sep);
      if NestedAccepts(e) && e.Directory? {
        LoadFilesKeepsFixed(s, path, e, sep);
      }
      var r := if !NestedAccepts(e) then Ok(s)
               else if e.Directory? then LoadFiles(s, path, e, sep)
               else DefineFile(s, path, e, sep);
      if r.Ok? {
        WalkKeepsFixed(r.value, dir, entries[1..], sep);
      }
    }
  }

  /** Every path a walk hands to `defineClass` has a separator in it, so
      with the default package handled no walk throws. */
  lemma {:induction false} LoadFilesNeverThrows(s: Scan, path: string, e: Entry, sep: char)
    ensures LoadFiles(s, path, e, sep).Ok?
    decreases e, 1
  {
    if e.Directory? {
      WalkNeverThrows(s, path, e.children, sep);
    }
  }

  lemma {:induction false} WalkNeverThrows(s: Scan, dir: string, entries: seq<Entry>, sep: char)
    ensures Walk(s, dir, entries, sep).Ok?
    decreases entries, 0
  {
    if |entries| > 0 {
      var e := entries[0];
      var path := Child(dir, e.name, sep);
      assert path[|dir|] == sep;
      if NestedAccepts(e) && e.Directory? {
        LoadFilesNeverThrows(s, path, e, sep);
      }
      var r := if !NestedAccepts(e) then Ok(s)
               else if e.Directory? then LoadFiles(s, path, e, sep)
               else DefineFile(s, path, e, sep);
      WalkNeverThrows(r.value, dir, entries[1..], sep);
    }
  }

  /** The same for the top-level loop, and so for `scanPath`. */
  lemma {:induction false} TopNeverThrows(s: Scan, dir: string, entries: seq<Entry>, sep: char, loadable: string -> bool)
    ensures Top(s, dir, entries, sep, loadable).Ok?
    decreases |entries|
  {
    if |entries| > 0 {
      var e := entries[0];
      var path := Child(dir, e.name, sep);
      assert path[|dir|] == sep;
      if e.Directory? {
        LoadFilesNeverThrows(s, path, e, sep);
      }
      var r := if !TopLevelAccepts(e) then Ok(s)
               else if e.Directory? then LoadFiles(s, path, e, sep)
               else if JavaStrings.EndsWith(e.name, ".jar") then Ok(s.(classes := s.classes + JarClasses(e.jar, loadable)))
               else DefineFile(s, path, e, sep);
      TopNeverThrows(r.value, dir, entries[1..], sep, loadable);
    }
  }

  class ClassScanner {
    var fixedPath: bool

    constructor()
      ensures !fixedPath
    {
      fixedPath := false;
    }

    /** `defineClass`: the class is added; while the base path is not
        fixed, the first class fixes it. A throw leaves `fixedPath` as it
        was. */
    method DefineClass(found: Found, className: Option<string>, absPath: string, sep: char)
      returns (r: Result<Found, Error>)
      modifies this
      ensures var d := DefineFile(Scan(found.classes, old(fixedPath), found.base), absPath, Plain("", className, None), sep);
        && (d.Ok? ==> r == Ok(Found(d.value.classes, d.value.base)) && fixedPath == d.value.fixed)
        && (d.Err? ==> r == Err(d.error) && fixedPath == old(fixedPath))
    {
      if className.None? {
        return Ok(found);
      }
      var classes := found.classes + {className.value};
      var base := found.base;
      if !fixedPath {
        var fb := FixedBase(className.value, absPath, sep);
        if fb.Err? {
          return Err(fb.error);
        }
        if fb.value.Some? {
          base := fb.value;
        }
        fixedPath := true;
      }
      r := Ok(Found(classes, base));
    }

    /** `loadFileClasses`. */
    method LoadFileClasses(path: string, e: Entry, found: Found, sep: char) returns (r: Result<Found, Error>)
      modifies this
      ensures var d := LoadFiles(Scan(found.classes, old(fixedPath), found.base), path, e, sep);
        && (d.Ok? ==> r == Ok(Found(d.value.classes, d.value.base)) && fixedPath == d.value.fixed)
        && (d.Err? ==> r == Err(d.error))
      decreases e
    {
      if e.Plain? {
        return Ok(found);
      }
      var children := e.children;
      var cur := found;
      for i := 0 to |children|
        invariant LoadFiles(Scan(found.classes, old(fixedPath), found.base), path, e, sep)
               == Walk(Scan(cur.classes, fixedPath, cur.base), path, children[i..], sep)
      {
        var child := children[i];
        assert children[i..][1..] == children[i + 1..];
        if NestedAccepts(child) {
          var step;
          if child.Directory? {
            step := LoadFileClasses(Child(path, child.name, sep), child, cur, sep);
          } else {
            step := DefineClass(cur, child.className, Child(path, child.name, sep), sep);
          }
          if step.Err? {
            return step;
          }
          cur := step.value;
        }
      }
      r := Ok(cur);
    }

    /** `scanPath` at `path`, whose entry is `root` (none when it does not
        exist); `loadable` says which jar classes their loader finds. */
    method ScanPath(path: string, root: Option<Entry>, sep: char, loadable: string -> bool)
      returns (r: Result<Found, Error>)
      modifies this
      ensures var d := Scanned(old(fixedPath), path, root, sep, loadable);
        && (d.Ok? ==> r == Ok(Found(d.value.classes, d.value.base)) && fixedPath == d.value.fixed)
        && (d.Err? ==> r == Err(d.error))
    {
      var cur := Found({}, None);
      if root.None? || root.value.Plain? {
        return Ok(cur);
      }
      var files := root.value.children;
      for i := 0 to |files|
        invariant Scanned(old(fixedPath), path, root, sep, loadable)
               == Top(Scan(cur.classes, fixedPath, cur.base), path, files[i..], sep, loadable)
      {
        var file := files[i];
        assert files[i..][1..] == files[i + 1..];
        if TopLevelAccepts(file) {
          var step;
          if file.Directory? {
            step := LoadFileClasses(Child(path, file.name, sep), file, cur, sep);
          } else if JavaStrings.EndsWith(file.name, ".jar") {
            var classes := LoadJarClasses(file.jar, loadable, cur.classes);
            step := Ok(Found(classes, cur.base));
          } else {
            step := DefineClass(cur, file.className, Child(path, file.name, sep), sep);
          }
          if step.Err? {
            return step;
          }
          cur := step.value;
        }
      }
      r := Ok(cur);
    }
  }
}
