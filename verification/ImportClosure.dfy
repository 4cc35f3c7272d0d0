/** The fixed product dependency closure over import edges. */
module ImportClosure {
  import opened Outcomes
  import Text

  /** The import statements of a parsed file, in walk order. */
  datatype ImportNode =
    | Import(names: seq<string>)
    | ImportFrom(imported: string, level: nat, names: seq<string>)

  /** Files by relative path; a file that does not parse has no nodes. */
  type Repository = map<string, Option<seq<ImportNode>>>

  datatype ClosureError = Unavailable(name: string) | Unparsable(name: string)

  // ---------------------------------------------------------------- edges

  /** parts[:k], with a negative k counting from the end. */
  function Prefix(parts: seq<string>, k: int): seq<string> {
    var n := if k < 0 then |parts| + k else k;
    if n <= 0 then [] else if n >= |parts| then parts else parts[..n]
  }

  /** The dotted module that an import-from names, made absolute. */
  function AbsoluteModule(name: string, node: ImportNode): string
    requires node.ImportFrom?
  {
    if node.level == 0 then node.imported
    else
      var path := Text.Split(name, '/');
      var parent := path[..|path| - 1];
      var base := Text.Join(Prefix(parent, |parent| - node.level + 1), '.');
      base + if node.imported != "" then "." + node.imported else ""
  }

  /** The modules a node may refer to: for an import-from, the module and each name as a submodule. */
  function ModulesOf(name: string, node: ImportNode): seq<string> {
    match node
    case Import(names) => names
    case ImportFrom(_, _, names) =>
      var target := AbsoluteModule(name, node);
      if target == "" then []
      else [target] + seq(|names|, i requires 0 <= i < |names| => target + "." + names[i])
  }

  predicate IsProduct(target: string) {
    "fakenet." <= target
  }

  function RelativePath(target: string): string {
    seq(|target|, i requires 0 <= i < |target| => if target[i] == '.' then '/' else target[i]) + ".py"
  }

  /** `name` imports the existing product file `other`. */
  ghost predicate Imports(repository: Repository, name: string, other: string) {
    && name in repository && repository[name].Some? && other in repository
    && exists i, j :: 0 <= i < |repository[name].value| && 0 <= j < |ModulesOf(name, repository[name].value[i])|
                      && Names(ModulesOf(name, repository[name].value[i])[j], other)
  }

  predicate Names(target: string, other: string) {
    IsProduct(target) && RelativePath(target) == other
  }

  // ---------------------------------------------------------------- which file an import names

  /** A component of a dotted name or a path. */
  predicate Plain(part: string) {
    part != "" && '.' !in part && '/' !in part
  }

  ghost predicate AllPlain(parts: seq<string>) {
    forall i :: 0 <= i < |parts| ==> Plain(parts[i])
  }

  /** The file of a module, given by its components. */
  function FileOf(parts: seq<string>): string {
    Text.Join(parts, '/') + ".py"
  }

  lemma RelativePathConcat(a: string, b: string)
    ensures RelativePath(a + b) == RelativePath(a)[..|a|] + RelativePath(b)
  {
  }

  lemma {:induction false} ModuleFile(parts: seq<string>)
    requires parts != [] && AllPlain(parts)
    ensures RelativePath(Text.Join(parts, '.')) == FileOf(parts)
  {
    if |parts| > 1 {
      ModuleFile(parts[1..]);
      var rest := Text.Join(parts[1..], '.');
      RelativePathConcat(parts[0] + ".", rest);
      assert RelativePath(parts[0] + ".")[..|parts[0]| + 1] == parts[0] + "/";
      assert parts[0] + ['.'] + rest == parts[0] + "." + rest;
      FileConcat(parts[0], parts[1..]);
    }
  }

  lemma FileConcat(part: string, rest: seq<string>)
    requires rest != []
    ensures part + "/" + FileOf(rest) == FileOf([part] + rest)
  {
    assert ([part] + rest)[1..] == rest;
  }

  /** A product module has at least two components, the first of them fakenet. */
  lemma ProductModule(parts: seq<string>)
    requires parts != [] && AllPlain(parts)
    ensures IsProduct(Text.Join(parts, '.')) <==> |parts| >= 2 && parts[0] == "fakenet"
  {
    var text := Text.Join(parts, '.');
    DotInside(text);
    if |parts| >= 2 {
      var rest := Text.Join(parts[1..], '.');
      assert text == parts[0] + ['.'] + rest;
      hide Text.Join;
      if IsProduct(text) {
        PrefixOfWord("fakenet", parts[0], rest);
      }
      StartsWith(parts[0], rest);
    } else {
      assert text == parts[0];
    }
  }

  lemma DotInside(text: string)
    ensures IsProduct(text) ==> '.' in text
  {
    assert IsProduct(text) ==> text[7] == '.';
  }

  lemma StartsWith(word: string, rest: string)
    ensures word == "fakenet" ==> IsProduct(word + ['.'] + rest)
  {
  }

  /** Only a dot ends a component. */
  lemma PrefixOfWord(a: string, b: string, rest: string)
    requires '.' !in a && '.' !in b && a + "." <= b + ['.'] + rest
    ensures a == b
  {
    var text := b + ['.'] + rest;
    assert text == a + ['.'] + text[|a| + 1..];
    Text.SplitWord(a, text[|a| + 1..], '.');
    Text.SplitWord(b, rest, '.');
    assert ([a] + Text.Split(text[|a| + 1..], '.'))[0] == ([b] + Text.Split(rest, '.'))[0];
  }

  lemma JoinParts(a: seq<string>, b: seq<string>)
    requires a != [] && b != []
    ensures Text.Join(a + b, '.') == Text.Join(a, '.') + "." + Text.Join(b, '.')
  {
    Text.JoinAppend(a, b, '.');
  }

  /** An import-from of level 0 names the module it spells, and each imported name as a module inside it. */
  lemma AbsoluteImport(name: string, parts: seq<string>, names: seq<string>, j: nat)
    requires parts != [] && AllPlain(parts) && AllPlain(names) && j < |names|
    ensures var modules := ModulesOf(name, ImportFrom(Text.Join(parts, '.'), 0, names));
            && |modules| == |names| + 1
            && RelativePath(modules[0]) == FileOf(parts)
            && RelativePath(modules[j + 1]) == FileOf(parts + [names[j]])
  {
    JoinNotEmpty(parts);
    ModuleFile(parts);
    NameInside(parts, names[j]);
  }

  lemma JoinNotEmpty(parts: seq<string>)
    requires parts != [] && AllPlain(parts)
    ensures Text.Join(parts, '.') != ""
  {
  }

  lemma NameInside(parts: seq<string>, name: string)
    requires parts != [] && AllPlain(parts) && Plain(name)
    ensures RelativePath(Text.Join(parts, '.') + "." + name) == FileOf(parts + [name])
  {
    JoinParts(parts, [name]);
    ModuleFile(parts + [name]);
  }

  /** A relative import of level n names a module inside the package n - 1 levels above the file's own package. */
  lemma RelativeImport(package: seq<string>, file: string, level: nat, parts: seq<string>, names: seq<string>, j: nat)
    requires AllPlain(package) && '/' !in file && 1 <= level <= |package|
    requires AllPlain(parts) && AllPlain(names) && j < |names|
    ensures var modules := ModulesOf(Text.Join(package + [file], '/'), ImportFrom(Text.Join(parts, '.'), level, names));
            var target := package[..|package| + 1 - level] + parts;
            && |modules| == |names| + 1
            && RelativePath(modules[0]) == FileOf(target)
            && RelativePath(modules[j + 1]) == FileOf(target + [names[j]])
  {
    hide *;
    var above := package[..|package| + 1 - level];
    var target := above + parts;
    PlainParts(package, level, parts, names, j);
    RelativeTarget(package, file, level, parts, names);
    var modules := ModulesOf(Text.Join(package + [file], '/'), ImportFrom(Text.Join(parts, '.'), level, names));
    assert modules[0] == Text.Join(target, '.') && modules[j + 1] == Text.Join(target, '.') + "." + names[j];
    ModuleFile(target);
    NameInside(target, names[j]);
  }

  lemma PlainParts(package: seq<string>, level: nat, parts: seq<string>, names: seq<string>, j: nat)
    requires AllPlain(package) && 1 <= level <= |package| && AllPlain(parts) && AllPlain(names) && j < |names|
    ensures Plain(names[j]) && package[..|package| + 1 - level] != []
    ensures AllPlain(package[..|package| + 1 - level] + parts)
  {
    hide Plain;
  }

  lemma RelativeTarget(package: seq<string>, file: string, level: nat, parts: seq<string>, names: seq<string>)
    requires AllPlain(package) && '/' !in file && 1 <= level <= |package| && AllPlain(parts)
    ensures var modules := ModulesOf(Text.Join(package + [file], '/'), ImportFrom(Text.Join(parts, '.'), level, names));
            var target := Text.Join(package[..|package| + 1 - level] + parts, '.');
            && |modules| == |names| + 1 && modules[0] == target
            && forall i :: 0 <= i < |names| ==> modules[i + 1] == target + "." + names[i]
  {
    hide *;
    var above := package[..|package| + 1 - level];
    var name, node := Text.Join(package + [file], '/'), ImportFrom(Text.Join(parts, '.'), level, names);
    AbsoluteBase(package, file, node);
    Extended(above, parts);
    PlainAbove(package, level, parts);
    JoinNotEmpty(above + parts);
    ModulesAre(name, node, Text.Join(above + parts, '.'));
  }

  lemma PlainAbove(package: seq<string>, level: nat, parts: seq<string>)
    requires AllPlain(package) && 1 <= level <= |package| && AllPlain(parts)
    ensures AllPlain(package[..|package| + 1 - level] + parts)
  {
    hide Plain;
  }

  /** A base package, extended by the components that a relative import names after its dots. */
  lemma Extended(base: seq<string>, parts: seq<string>)
    requires base != [] && AllPlain(parts)
    ensures Text.Join(base + parts, '.')
         == Text.Join(base, '.') + if Text.Join(parts, '.') != "" then "." + Text.Join(parts, '.') else ""
  {
    if parts != [] {
      JoinNotEmpty(parts);
      JoinParts(base, parts);
    } else {
      JoinNothing();
      assert base + parts == base;
    }
  }

  lemma JoinNothing()
    ensures Text.Join([], '.') == ""
  {
  }

  lemma ModulesAre(name: string, node: ImportNode, target: string)
    requires node.ImportFrom? && AbsoluteModule(name, node) == target != ""
    ensures var modules := ModulesOf(name, node);
            && |modules| == |node.names| + 1 && modules[0] == target
            && forall i :: 0 <= i < |node.names| ==> modules[i + 1] == target + "." + node.names[i]
  {
    hide AbsoluteModule;
  }

  lemma AbsoluteBase(package: seq<string>, file: string, node: ImportNode)
    requires AllPlain(package) && '/' !in file && node.ImportFrom? && 1 <= node.level <= |package|
    ensures AbsoluteModule(Text.Join(package + [file], '/'), node)
         == Text.Join(package[..|package| + 1 - node.level], '.')
            + if node.imported != "" then "." + node.imported else ""
  {
    var path := package + [file];
    NoSlash(package, file);
    hide Text.Join, Text.Split, Plain, AllPlain, Prefix;
    Text.SplitJoin(path, '/');
    assert path[..|path| - 1] == package;
    PrefixAbove(package, node.level);
  }

  lemma NoSlash(package: seq<string>, file: string)
    requires AllPlain(package) && '/' !in file
    ensures forall i :: 0 <= i < |package + [file]| ==> '/' !in (package + [file])[i]
  {
  }

  lemma PrefixAbove(package: seq<string>, level: nat)
    requires 1 <= level <= |package|
    ensures Prefix(package, |package| - level + 1) == package[..|package| + 1 - level]
  {
  }

  // ---------------------------------------------------------------- reachability

  ghost predicate IsPath(repository: Repository, path: seq<string>) {
    path != [] && forall i :: 0 <= i < |path| - 1 ==> Imports(repository, path[i], path[i + 1])
  }

  ghost predicate Reachable(repository: Repository, seeds: seq<string>, name: string) {
    exists path :: IsPath(repository, path) && path[0] in seeds && path[|path| - 1] == name
  }

  lemma SeedReachable(repository: Repository, seeds: seq<string>, name: string)
    requires name in seeds
    ensures Reachable(repository, seeds, name)
  {
    var path := [name];
    assert IsPath(repository, path) && path[0] in seeds && path[|path| - 1] == name;
  }

  lemma ImportReachable(repository: Repository, seeds: seq<string>, name: string, other: string)
    requires Reachable(repository, seeds, name) && Imports(repository, name, other)
    ensures Reachable(repository, seeds, other)
  {
    hide Imports;
    var path :| IsPath(repository, path) && path[0] in seeds && path[|path| - 1] == name;
    var longer := path + [other];
    forall i | 0 <= i < |longer| - 1
      ensures Imports(repository, longer[i], longer[i + 1])
    {
      assert i < |path| - 1 ==> Imports(repository, path[i], path[i + 1]);
    }
    assert IsPath(repository, longer) && longer[0] in seeds && longer[|longer| - 1] == other;
  }

  /** A set that holds the seeds and every import of its members holds everything reachable. */
  lemma {:induction false} ClosedHoldsPath(repository: Repository, seeds: seq<string>, closed: set<string>,
                                           path: seq<string>)
    requires forall s :: s in seeds ==> s in closed
    requires forall a, b :: a in closed && Imports(repository, a, b) ==> b in closed
    requires IsPath(repository, path) && path[0] in seeds
    ensures path[|path| - 1] in closed
  {
    hide Imports;
    var n := |path| - 1;
    if n > 0 {
      ClosedHoldsPath(repository, seeds, closed, path[..n]);
      assert Imports(repository, path[n - 1], path[n]);
    }
  }

  // ---------------------------------------------------------------- the worklist

  /** Every import of a seen file is seen or still pending. */
  ghost predicate Covered(repository: Repository, seen: set<string>, pending: seq<string>) {
    forall a, b :: a in seen && Imports(repository, a, b) ==> b in seen || b in pending
  }

  ghost predicate AllReachable(repository: Repository, seeds: seq<string>, names: seq<string>) {
    forall p :: p in names ==> Reachable(repository, seeds, p) && (p in seeds || p in repository)
  }

  /** Appends the imports of one file that are present and not yet seen. */
  method AppendImports(repository: Repository, name: string, seen: set<string>, pending: seq<string>,
                       ghost seeds: seq<string>) returns (longer: seq<string>)
    requires name in repository && repository[name].Some? && Reachable(repository, seeds, name)
    requires AllReachable(repository, seeds, pending)
    ensures pending <= longer && AllReachable(repository, seeds, longer)
    ensures forall other :: Imports(repository, name, other) ==> other in seen || other in longer
  {
    hide Reachable, AllReachable, RelativePath, IsProduct, ModulesOf;
    longer := pending;
    var nodes := repository[name].value;
    for i := 0 to |nodes|
      invariant pending <= longer && AllReachable(repository, seeds, longer)
      invariant forall k, j :: 0 <= k < i && 0 <= j < |ModulesOf(name, nodes[k])| ==>
                  Offered(repository, ModulesOf(name, nodes[k])[j], seen, longer)
    {
      var modules := ModulesOf(name, nodes[i]);
      for j := 0 to |modules|
        invariant pending <= longer && AllReachable(repository, seeds, longer)
        invariant forall k, l :: 0 <= k < i && 0 <= l < |ModulesOf(name, nodes[k])| ==>
                    Offered(repository, ModulesOf(name, nodes[k])[l], seen, longer)
        invariant forall l :: 0 <= l < j ==> Offered(repository, modules[l], seen, longer)
      {
        if IsProduct(modules[j]) {
          var relative := RelativePath(modules[j]);
          if relative in repository && relative !in seen {
            assert Names(modules[j], relative);
            assert Imports(repository, name, relative);
            OneReachable(repository, seeds, name, relative, longer);
            longer := longer + [relative];
          }
        }
      }
    }
  }

  /** If the module stands for an existing file, that file is seen or pending. */
  predicate Offered(repository: Repository, target: string, seen: set<string>, pending: seq<string>) {
    IsProduct(target) && RelativePath(target) in repository ==>
      RelativePath(target) in seen || RelativePath(target) in pending
  }

  lemma OneReachable(repository: Repository, seeds: seq<string>, name: string, other: string, pending: seq<string>)
    requires Reachable(repository, seeds, name) && Imports(repository, name, other)
    requires AllReachable(repository, seeds, pending)
    ensures AllReachable(repository, seeds, pending + [other])
  {
    ImportReachable(repository, seeds, name, other);
    assert other in repository;
    hide Reachable, Imports;
  }

  /** On success exactly the files reachable from the seeds, whatever order the worklist takes. */
  method SourcePins(repository: Repository, seeds: seq<string>, digest: string -> string)
    returns (r: Result<map<string, string>, ClosureError>)
    ensures r.Ok? <==>
              forall name :: Reachable(repository, seeds, name) ==> name in repository && repository[name].Some?
    ensures r.Ok? ==> forall name :: name in r.value <==> Reachable(repository, seeds, name)
    ensures r.Ok? ==> forall name :: name in r.value ==> r.value[name] == digest(name)
    ensures r.Err? ==> match r.error
                       case Unavailable(name) => name in seeds && name !in repository
                       case Unparsable(name) =>
                         Reachable(repository, seeds, name) && name in repository && repository[name].None?
  {
    hide Reachable, Imports;
    var pending := seeds;
    var seen: set<string> := {};
    forall s | s in seeds
      ensures Reachable(repository, seeds, s)
    {
      SeedReachable(repository, seeds, s);
    }
    while pending != []
      invariant seen <= repository.Keys
      invariant forall f :: f in seen ==> repository[f].Some? && Reachable(repository, seeds, f)
      invariant AllReachable(repository, seeds, pending)
      invariant forall s :: s in seeds ==> s in seen || s in pending
      invariant Covered(repository, seen, pending)
      decreases |repository.Keys - seen|, |pending|
    {
      var last := |pending| - 1;
      var name := pending[last];
      var rest := pending[..last];
      PopKeeps(repository, seeds, seen, pending);
      if name in seen {
        pending := rest;
      } else {
        if name !in repository {
          return Err(Unavailable(name));
        }
        if repository[name].None? {
          return Err(Unparsable(name));
        }
        FewerLeft(repository.Keys, seen, name);
        var longer := AppendImports(repository, name, seen + {name}, rest, seeds);
        PushKeeps(repository, seeds, seen, rest, name, longer);
        seen := seen + {name};
        pending := longer;
      }
    }
    forall name | Reachable(repository, seeds, name)
      ensures name in seen
    {
      EmptyMeansAll(repository, seeds, seen, name);
    }
    return Ok(map f | f in seen :: digest(f));
  }

  lemma PopKeeps(repository: Repository, seeds: seq<string>, seen: set<string>, pending: seq<string>)
    requires pending != [] && AllReachable(repository, seeds, pending) && Covered(repository, seen, pending)
    requires forall s :: s in seeds ==> s in seen || s in pending
    ensures var last := |pending| - 1; var name, rest := pending[last], pending[..last];
            && AllReachable(repository, seeds, rest)
            && Reachable(repository, seeds, name) && (name in seeds || name in repository)
            && (forall s :: s in seeds ==> s in seen + {name} || s in rest)
            && Covered(repository, seen, rest + [name])
            && (name in seen ==> Covered(repository, seen, rest))
  {
    hide Reachable, Imports;
    assert pending == pending[..|pending| - 1] + [pending[|pending| - 1]];
  }

  lemma PushKeeps(repository: Repository, seeds: seq<string>, seen: set<string>, rest: seq<string>, name: string,
                  longer: seq<string>)
    requires Covered(repository, seen, rest + [name]) && rest <= longer
    requires forall other :: Imports(repository, name, other) ==> other in seen + {name} || other in longer
    requires forall s :: s in seeds ==> s in seen + {name} || s in rest
    ensures Covered(repository, seen + {name}, longer)
    ensures forall s :: s in seeds ==> s in seen + {name} || s in longer
  {
    hide Imports;
    assert forall p :: p in rest ==> p in longer;
  }

  lemma FewerLeft(all: set<string>, seen: set<string>, name: string)
    requires name in all && name !in seen
    ensures |all - (seen + {name})| < |all - seen|
  {
    assert all - (seen + {name}) == (all - seen) - {name};
  }

  lemma EmptyMeansAll(repository: Repository, seeds: seq<string>, seen: set<string>, name: string)
    requires Covered(repository, seen, []) && (forall s :: s in seeds ==> s in seen)
    requires Reachable(repository, seeds, name)
    ensures name in seen
  {
    hide Imports;
    var path :| IsPath(repository, path) && path[0] in seeds && path[|path| - 1] == name;
    ClosedHoldsPath(repository, seeds, seen, path);
  }
}
