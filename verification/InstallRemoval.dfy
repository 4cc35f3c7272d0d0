/** Removal of a created installation, deepest object first, touching nothing else. */
module InstallRemoval {
  import opened Outcomes
  import opened Interferences
  import Text

  datatype Kind = Directory | Regular | Symlink | Special

  /** A file-system object; `content` is a file's digest or a link's target. */
  datatype Node = Node(kind: Kind, inode: int, device: int, mode: int, uid: int, gid: int, links: int, content: string)

  /** What the inventory records about an object. */
  datatype Item = Item(kind: Kind, inode: int, device: int, mode: int, uid: int, gid: int, content: string)

  type Tree = map<string, Node>

  const BASES: seq<string> :=
    ["opt/fakenet-ng", "etc/fakenet-ng-linux", "etc/systemd/system/fakenet-ng-linux.service"]

  const UPDATED: set<string> :=
    {"opt/fakenet-ng/fakenet/mcp/linuxrunner.py", "opt/fakenet-ng/fakenet/diverters/linuxnetpolicy.py"}

  function Depth(path: string): nat {
    if path == "" then 0 else (if path[0] == '/' then 1 else 0) + Depth(path[1..])
  }

  predicate Under(base: string, path: string) {
    |path| > |base| && path[..|base|] == base && path[|base|] == '/'
  }

  /** Everything below an object implies that the object exists and is a directory. */
  ghost predicate TreeOk(tree: Tree) {
    forall p, q :: q in tree && Under(p, q) ==> p in tree && tree[p].kind == Directory
  }

  predicate Owned(path: string) {
    exists i :: 0 <= i < |BASES| && (path == BASES[i] || Under(BASES[i], path))
  }

  /** The installation is one program tree, one configuration tree and one unit file. */
  lemma OwnedMeans(path: string)
    ensures Owned(path) <==>
              || path == "opt/fakenet-ng" || "opt/fakenet-ng/" <= path
              || path == "etc/fakenet-ng-linux" || "etc/fakenet-ng-linux/" <= path
              || path == "etc/systemd/system/fakenet-ng-linux.service"
              || "etc/systemd/system/fakenet-ng-linux.service/" <= path
  {
    BelowMeans("opt/fakenet-ng", path);
    BelowMeans("etc/fakenet-ng-linux", path);
    BelowMeans("etc/systemd/system/fakenet-ng-linux.service", path);
    assert "opt/fakenet-ng" + "/" == "opt/fakenet-ng/";
    assert "etc/fakenet-ng-linux" + "/" == "etc/fakenet-ng-linux/";
    assert "etc/systemd/system/fakenet-ng-linux.service" + "/" == "etc/systemd/system/fakenet-ng-linux.service/";
    hide Under;
    assert BASES[0] == "opt/fakenet-ng" && BASES[1] == "etc/fakenet-ng-linux";
    assert BASES[2] == "etc/systemd/system/fakenet-ng-linux.service";
  }

  lemma BelowMeans(base: string, path: string)
    ensures Under(base, path) <==> base + "/" <= path
  {
    if Under(base, path) {
      assert path[..|base| + 1] == base + "/";
    }
  }

  predicate Acceptable(n: Node) {
    n.kind != Special && (n.kind == Regular ==> n.links == 1)
  }

  function ItemOf(n: Node): Item {
    Item(n.kind, n.inode, n.device, n.mode, n.uid, n.gid, if n.kind == Directory then "" else n.content)
  }

  function Inventory(tree: Tree): map<string, Item> {
    map p | p in tree && Owned(p) :: ItemOf(tree[p])
  }

  datatype RemovalError = UnexpectedObject | ObjectSetChanged | ForeignDrift | ChangedBeforeCleanup | Missing
                        | NotEmpty | WrongKind | BytesChanged

  method InstallationInventory(tree: Tree) returns (r: Result<map<string, Item>, RemovalError>)
    ensures r.Ok? <==> forall p :: p in tree && Owned(p) ==> Acceptable(tree[p])
    ensures r.Ok? ==> r.value == Inventory(tree)
    ensures r.Err? ==> r.error == UnexpectedObject
  {
    var rows: map<string, Item> := map[];
    var todo := set p | p in tree && Owned(p);
    ghost var all := todo;
    while todo != {}
      invariant todo <= all && rows.Keys == all - todo
      invariant forall p :: p in rows ==> Acceptable(tree[p]) && rows[p] == ItemOf(tree[p])
      decreases |todo|
    {
      var p :| p in todo;
      if !Acceptable(tree[p]) {
        return Err(UnexpectedObject);
      }
      rows := rows[p := ItemOf(tree[p])];
      todo := todo - {p};
    }
    return Ok(rows);
  }

  // ---------------------------------------------------------------- deepest first

  /** The reversed (depth, name) order. */
  predicate DeletedBefore(a: string, b: string) {
    Depth(b) < Depth(a) || (Depth(a) == Depth(b) && Text.Less(b, a))
  }

  ghost predicate DeepestFirst(order: seq<string>, names: set<string>) {
    && (forall i :: 0 <= i < |order| ==> order[i] in names)
    && (forall p :: p in names ==> p in order)
    && (forall i, j :: 0 <= i < j < |order| ==> DeletedBefore(order[i], order[j]))
  }

  lemma DeletionOrder(a: string, b: string, c: string)
    ensures a == b || DeletedBefore(a, b) || DeletedBefore(b, a)
    ensures DeletedBefore(a, b) ==> !DeletedBefore(b, a) && a != b
    ensures DeletedBefore(a, b) && DeletedBefore(b, c) ==> DeletedBefore(a, c)
  {
    Text.LessTotal(a, b);
    if Text.Less(b, a) {
      Text.LessAsymmetric(b, a);
      if Text.Less(c, b) {
        Text.LessTransitive(c, b, a);
      }
    }
    if Text.Less(a, b) {
      Text.LessAsymmetric(a, b);
    }
  }

  /** Names of one depth are deleted in reverse order. */
  lemma ReverseNames(stem: string, a: char, b: char, rest: string, rest': string)
    requires Depth(stem + [a] + rest) == Depth(stem + [b] + rest') && a < b
    ensures DeletedBefore(stem + [b] + rest', stem + [a] + rest)
  {
    LessAt(stem, a, b, rest, rest');
  }

  lemma {:induction false} LessAt(stem: string, a: char, b: char, rest: string, rest': string)
    requires a < b
    ensures Text.Less(stem + [a] + rest, stem + [b] + rest')
  {
    var x, y := stem + [a] + rest, stem + [b] + rest';
    if stem != "" {
      assert x[0] == y[0] == stem[0];
      assert x[1..] == stem[1..] + [a] + rest && y[1..] == stem[1..] + [b] + rest';
      LessAt(stem[1..], a, b, rest, rest');
    } else {
      assert x[0] == a && y[0] == b;
    }
  }

  /** sorted(..., reverse=True): repeatedly takes the deepest remaining name. */
  method Sorted(names: set<string>) returns (order: seq<string>)
    ensures DeepestFirst(order, names)
  {
    order := [];
    var rest := names;
    while rest != {}
      invariant rest <= names
      invariant forall i :: 0 <= i < |order| ==> order[i] in names && order[i] !in rest
      invariant forall p :: p in names ==> p in order || p in rest
      invariant forall i, j :: 0 <= i < j < |order| ==> DeletedBefore(order[i], order[j])
      invariant forall i, p :: 0 <= i < |order| && p in rest ==> DeletedBefore(order[i], p)
      decreases |rest|
    {
      var p := First(rest);
      order := order + [p];
      rest := rest - {p};
    }
  }

  method First(names: set<string>) returns (p: string)
    requires names != {}
    ensures p in names && forall q :: q in names && q != p ==> DeletedBefore(p, q)
  {
    p :| p in names;
    var seen, rest := {p}, names - {p};
    while rest != {}
      invariant seen + rest == names && p in seen
      invariant forall q :: q in seen && q != p ==> DeletedBefore(p, q)
      decreases |rest|
    {
      var q :| q in rest;
      ghost var was := p;
      DeletionOrder(p, q, q);
      if DeletedBefore(q, p) {
        forall s | s in seen && s != p
          ensures DeletedBefore(q, s)
        {
          DeletionOrder(q, p, s);
        }
        p := q;
      }
      seen, rest := seen + {q}, rest - {q};
    }
  }

  lemma {:induction false} DepthSplits(a: string, b: string)
    ensures Depth(a + b) == Depth(a) + Depth(b)
  {
    if a == "" {
      assert a + b == b;
    } else {
      assert (a + b)[1..] == a[1..] + b;
      DepthSplits(a[1..], b);
    }
  }

  /** Every descendant is deleted before its ancestor. */
  lemma DescendantsFirst(base: string, path: string)
    requires Under(base, path)
    ensures DeletedBefore(path, base)
  {
    assert path == base + path[|base|..];
    DepthSplits(base, path[|base|..]);
  }

  // ---------------------------------------------------------------- removal

  /** The recorded object, apart from the bytes that the update was allowed to replace. */
  predicate Undrifted(name: string, before: Item, current: Item, updates: map<string, string>)
    requires name in UPDATED ==> name in updates
  {
    if name in UPDATED then
      && current.kind == Regular && current.content == updates[name]
      && current.mode == before.mode && current.uid == before.uid && current.gid == before.gid
      && current.kind == before.kind && current.device == before.device
    else current == before
  }

  /** The installation is exactly what was created, up to the two updated sources. */
  ghost predicate Intact(tree: Tree, created: map<string, Item>, updates: map<string, string>) {
    && (forall p :: p in tree && Owned(p) ==> Acceptable(tree[p]))
    && updates.Keys == UPDATED && Inventory(tree).Keys == created.Keys
    && (forall p :: p in created ==> Undrifted(p, created[p], Inventory(tree)[p], updates))
  }

  /** What counts as drift, attribute by attribute: every created object is there with its kind, identity, owner, mode
      and content, except that the two updated sources are other files with the expected bytes. */
  lemma IntactMeans(tree: Tree, created: map<string, Item>, updates: map<string, string>)
    ensures Intact(tree, created, updates) <==>
              && updates.Keys == UPDATED
              && (forall p :: p in created <==> p in tree && Owned(p))
              && (forall p :: p in created ==>
                    && p in tree && tree[p].kind != Special && (tree[p].kind == Regular ==> tree[p].links == 1)
                    && created[p].kind == tree[p].kind && created[p].mode == tree[p].mode
                    && created[p].uid == tree[p].uid && created[p].gid == tree[p].gid
                    && created[p].device == tree[p].device
                    && (if p in UPDATED then tree[p].kind == Regular && p in updates && tree[p].content == updates[p]
                        else created[p].inode == tree[p].inode
                             && created[p].content == if tree[p].kind == Directory then "" else tree[p].content))
  {
    hide Owned;
    assert forall p :: p in Inventory(tree).Keys <==> p in tree && Owned(p);
    assert forall p :: p in Inventory(tree) ==> Inventory(tree)[p] == ItemOf(tree[p]);
  }

  type Others = Interference<string, Node>

  /** The tree after our first k deletions, with every interference in between. */
  function Evolved(tree: Tree, order: seq<string>, others: Others, k: nat): Tree
    requires k <= |order|
  {
    if k == 0 then tree else others(k - 1, Evolved(tree, order, others, k - 1)) - {order[k - 1]}
  }

  /** The object found at the k-th step is the recorded one and may go. */
  predicate Removable(tree: Tree, name: string, row: Item) {
    && name in tree
    && tree[name].inode == row.inode && tree[name].device == row.device
    && (if row.kind == Directory
        then tree[name].kind == Directory && !exists q :: q in tree && Under(name, q)
        else tree[name].kind != Directory && (row.kind == Regular ==> tree[name].content == row.content))
  }

  class InstalledTree {
    var tree: Tree

    constructor (tree: Tree)
      ensures this.tree == tree
    {
      this.tree := tree;
    }

    /** One checked deletion of one recorded object. */
    method RemoveOne(name: string, row: Item) returns (r: Result<(), RemovalError>)
      modifies this
      ensures r.Ok? <==> Removable(old(tree), name, row)
      ensures tree == if r.Ok? then old(tree) - {name} else old(tree)
    {
      if name !in tree {
        return Err(Missing);
      }
      var found := tree[name];
      if found.inode != row.inode || found.device != row.device {
        return Err(ChangedBeforeCleanup);
      }
      if row.kind == Directory {
        if found.kind != Directory {
          return Err(WrongKind);
        }
        if exists q :: q in tree && Under(name, q) {
          return Err(NotEmpty);
        }
      } else {
        if row.kind == Regular && found.content != row.content {
          return Err(BytesChanged);
        }
        if found.kind == Directory {
          return Err(WrongKind);
        }
      }
      tree := tree - {name};
      return Ok(());
    }

    /** Every check before the first deletion. */
    method CheckIntact(created: map<string, Item>, updates: map<string, string>)
      returns (r: Result<map<string, Item>, RemovalError>)
      ensures r.Ok? <==> Intact(tree, created, updates)
      ensures r.Ok? ==> r.value == Inventory(tree) && r.value.Keys == created.Keys
    {
      hide Owned, Acceptable, Inventory;
      var inventory := InstallationInventory(tree);
      if inventory.Err? {
        return Err(inventory.error);
      }
      var actual := inventory.value;
      if updates.Keys != UPDATED || actual.Keys != created.Keys {
        return Err(ObjectSetChanged);
      }
      if exists p :: p in created && !Undrifted(p, created[p], actual[p], updates) {
        return Err(ForeignDrift);
      }
      return Ok(actual);
    }

    /** Deletes in the given order, while others interfere, until an object fails its check. */
    method DeleteAll(order: seq<string>, actual: map<string, Item>, others: Others)
      returns (r: Result<(), RemovalError>, done: nat)
      requires forall i :: 0 <= i < |order| ==> order[i] in actual
      modifies this
      ensures Progress(old(tree), tree, order, actual, others, done, r.Ok?)
    {
      hide *;
      done := 0;
      ghost var before := tree;
      NoneGone(before, order, actual, others);
      while done < |order|
        invariant done <= |order|
        invariant tree == Evolved(before, order, others, done)
        invariant Gone(before, order, actual, others, done)
        decreases |order| - done
      {
        tree := others(done, tree);
        var removed := RemoveOne(order[done], actual[order[done]]);
        if removed.Err? {
          Stopped(before, order, actual, others, done, false);
          return Err(removed.error), done;
        }
        OneGone(before, order, actual, others, done);
        done := done + 1;
      }
      Stopped(before, order, actual, others, done, true);
      return Ok(()), done;
    }

    method RemoveCreatedInstallation(created: map<string, Item>, updates: map<string, string>, others: Others)
      returns (r: Result<(), RemovalError>, order: seq<string>, done: nat)
      modifies this
      ensures !Intact(old(tree), created, updates) ==> r.Err? && tree == old(tree) && done == 0
      ensures Intact(old(tree), created, updates) ==>
                && DeepestFirst(order, created.Keys)
                && (forall i :: 0 <= i < |order| ==> order[i] in Inventory(old(tree)))
                && Progress(old(tree), tree, order, Inventory(old(tree)), others, done, r.Ok?)
    {
      hide *;
      order, done := [], 0;
      var checked := CheckIntact(created, updates);
      if checked.Err? {
        return Err(checked.error), order, done;
      }
      order := Sorted(checked.value.Keys);
      OrderKnown(order, checked.value);
      r, done := DeleteAll(order, checked.value, others);
    }
  }

  lemma OrderKnown(order: seq<string>, rows: map<string, Item>)
    requires DeepestFirst(order, rows.Keys)
    ensures forall i :: 0 <= i < |order| ==> order[i] in rows
  {
    hide DeletedBefore;
  }

  /** The first `done` steps each met and removed their recorded object. */
  ghost predicate Gone(before: Tree, order: seq<string>, rows: map<string, Item>, others: Others, done: nat)
    requires forall i :: 0 <= i < |order| ==> order[i] in rows
  {
    && done <= |order|
    && forall k :: 0 <= k < done ==> Removable(others(k, Evolved(before, order, others, k)), order[k], rows[order[k]])
  }

  /** `done` steps went through; the next one, if any is left, could not. */
  ghost predicate Progress(before: Tree, after: Tree, order: seq<string>, rows: map<string, Item>, others: Others,
                           done: nat, finished: bool)
    requires forall i :: 0 <= i < |order| ==> order[i] in rows
  {
    && Gone(before, order, rows, others, done)
    && (finished <==> done == |order|)
    && (!finished ==> !Removable(others(done, Evolved(before, order, others, done)), order[done], rows[order[done]]))
    && after == if finished then Evolved(before, order, others, done)
                else others(done, Evolved(before, order, others, done))
  }

  lemma GoneBound(before: Tree, order: seq<string>, rows: map<string, Item>, others: Others, done: nat)
    requires forall i :: 0 <= i < |order| ==> order[i] in rows
    requires Gone(before, order, rows, others, done)
    ensures done <= |order|
  {
  }

  /** Every object that went had, when its turn came, the recorded identity and kind; a file held the recorded bytes,
      and a directory was empty. The object that stopped the removal differed in one of these. */
  lemma GoneAsRecorded(before: Tree, after: Tree, order: seq<string>, rows: map<string, Item>, others: Others,
                       done: nat, finished: bool, k: nat)
    requires forall i :: 0 <= i < |order| ==> order[i] in rows
    requires Progress(before, after, order, rows, others, done, finished) && k < |order| && k <= done
    ensures var name := order[k]; var row := rows[name]; var tree := others(k, Evolved(before, order, others, k));
            k < done <==>
              && name in tree && tree[name].inode == row.inode && tree[name].device == row.device
              && (row.kind == Regular ==> tree[name].content == row.content)
              && (row.kind == Directory <==> tree[name].kind == Directory)
              && (row.kind == Directory ==>
                    forall q :: q in tree ==> !(|q| > |name| && q[..|name|] == name && q[|name|] == '/'))
  {
    hide Evolved;
  }

  lemma NoneGone(before: Tree, order: seq<string>, rows: map<string, Item>, others: Others)
    requires forall i :: 0 <= i < |order| ==> order[i] in rows
    ensures Gone(before, order, rows, others, 0) && Evolved(before, order, others, 0) == before
  {
  }

  lemma OneGone(before: Tree, order: seq<string>, rows: map<string, Item>, others: Others, done: nat)
    requires forall i :: 0 <= i < |order| ==> order[i] in rows
    requires Gone(before, order, rows, others, done) && done < |order|
    requires Removable(others(done, Evolved(before, order, others, done)), order[done], rows[order[done]])
    ensures Gone(before, order, rows, others, done + 1)
    ensures Evolved(before, order, others, done + 1)
              == others(done, Evolved(before, order, others, done)) - {order[done]}
  {
    EvolvedNext(before, order, others, done);
    hide Removable, Evolved;
  }

  lemma EvolvedNext(before: Tree, order: seq<string>, others: Others, k: nat)
    requires k < |order|
    ensures Evolved(before, order, others, k + 1) == others(k, Evolved(before, order, others, k)) - {order[k]}
  {
  }

  lemma Stopped(before: Tree, order: seq<string>, rows: map<string, Item>, others: Others, done: nat, finished: bool)
    requires forall i :: 0 <= i < |order| ==> order[i] in rows
    requires Gone(before, order, rows, others, done) && (finished <==> done == |order|)
    requires !finished ==>
              !Removable(others(done, Evolved(before, order, others, done)), order[done], rows[order[done]])
    ensures Progress(before, if finished then Evolved(before, order, others, done)
                             else others(done, Evolved(before, order, others, done)), order, rows, others, done,
                                 finished)
  {
    hide Removable, Gone;
  }

  // ---------------------------------------------------------------- whatever others do

  lemma {:induction false} Survives(before: Tree, order: seq<string>, others: Others, p: string, j: nat, k: nat)
    requires j <= k <= |order| && Keeps(others, p) && p in Evolved(before, order, others, j)
    requires forall i :: j <= i < k ==> order[i] != p
    ensures p in Evolved(before, order, others, k)
    ensures Evolved(before, order, others, k)[p] == Evolved(before, order, others, j)[p]
  {
    if j < k {
      Survives(before, order, others, p, j, k - 1);
      hide Evolved;
      EvolvedNext(before, order, others, k - 1);
    }
  }

  /** Where the removal ends, whether it finished or was stopped, an object that was there at some step,
      that nobody else takes away and that the steps since did not delete, is still there unchanged. */
  lemma SurvivesRemoval(before: Tree, after: Tree, order: seq<string>, rows: map<string, Item>, others: Others,
                        done: nat, finished: bool, p: string, j: nat)
    requires forall i :: 0 <= i < |order| ==> order[i] in rows
    requires Progress(before, after, order, rows, others, done, finished)
    requires j <= done <= |order| && Keeps(others, p) && p in Evolved(before, order, others, j)
    requires forall i :: j <= i < done ==> order[i] != p
    ensures p in after && after[p] == Evolved(before, order, others, j)[p]
  {
    hide Evolved, Gone, Removable;
    Survives(before, order, others, p, j, done);
  }

  /** No unrecorded object is ever deleted: one that is present at any step, from the start or created by
      others meanwhile, is present and unchanged at every later step and at the end. */
  lemma OnlyRecordedObjectsGo(before: Tree, after: Tree, order: seq<string>, rows: map<string, Item>, others: Others,
                              done: nat, finished: bool, p: string, j: nat, k: nat)
    requires forall i :: 0 <= i < |order| ==> order[i] in rows
    requires Progress(before, after, order, rows, others, done, finished)
    requires j <= k <= done <= |order| && p !in rows && Keeps(others, p) && p in Evolved(before, order, others, j)
    ensures p in Evolved(before, order, others, k)
    ensures Evolved(before, order, others, k)[p] == Evolved(before, order, others, j)[p]
    ensures p in after && after[p] == Evolved(before, order, others, j)[p]
  {
    hide Evolved, Progress;
    Survives(before, order, others, p, j, k);
    SurvivesRemoval(before, after, order, rows, others, done, finished, p, j);
  }

  /** An unrecorded object below the recorded directory order[d], present when its turn has not passed,
      stops the removal there: neither that directory nor any recorded ancestor of it is deleted, and
      each of them that others leave alone is there unchanged at the end. */
  lemma UnknownChildStops(before: Tree, after: Tree, order: seq<string>, rows: map<string, Item>, others: Others,
                          done: nat, finished: bool, q: string, j: nat, d: nat)
    requires DeepestFirst(order, rows.Keys) && forall i :: 0 <= i < |order| ==> order[i] in rows
    requires Progress(before, after, order, rows, others, done, finished)
    requires j <= d < |order| && rows[order[d]].kind == Directory && Under(order[d], q)
    requires q !in rows && Keeps(others, q) && q in Evolved(before, order, others, j)
    ensures !finished && done <= d
    ensures forall e :: 0 <= e < |order| && Under(order[e], order[d]) ==> d < e
    ensures forall e ::
              0 <= e < |order| && (e == d || Under(order[e], order[d])) && Keeps(others, order[e]) && order[e] in before
              ==> order[e] in after && after[order[e]] == before[order[e]]
  {
    hide Under, DeletedBefore, Evolved, Keeps;
    Survives(before, order, others, q, j, d);
    StepStops(before, after, order, rows, others, done, finished, q, d);
    forall e | 0 <= e < |order| && Under(order[e], order[d])
      ensures d < e
    {
      DescendantsFirst(order[e], order[d]);
      DeletionOrder(order[d], order[e], order[d]);
    }
    forall e | 0 <= e < |order| && (e == d || Under(order[e], order[d])) && Keeps(others, order[e])
        && order[e] in before
      ensures order[e] in after && after[order[e]] == before[order[e]]
    {
      Distinct(order, rows.Keys, e);
      NoneGone(before, order, rows, others);
      SurvivesRemoval(before, after, order, rows, others, done, finished, order[e], 0);
    }
  }

  lemma Distinct(order: seq<string>, names: set<string>, e: nat)
    requires DeepestFirst(order, names) && e < |order|
    ensures forall i :: 0 <= i < e ==> order[i] != order[e]
  {
    hide DeletedBefore;
    forall i | 0 <= i < e
      ensures order[i] != order[e]
    {
      DeletionOrder(order[i], order[e], order[e]);
    }
  }

  /** A directory that still holds something is not removed. */
  lemma StepStops(before: Tree, after: Tree, order: seq<string>, rows: map<string, Item>, others: Others,
                  done: nat, finished: bool, q: string, d: nat)
    requires forall i :: 0 <= i < |order| ==> order[i] in rows
    requires Progress(before, after, order, rows, others, done, finished)
    requires d < |order| && rows[order[d]].kind == Directory && Under(order[d], q)
    requires Keeps(others, q) && q in Evolved(before, order, others, d)
    ensures !finished && done <= d
  {
    hide Under, Evolved;
    assert q in others(d, Evolved(before, order, others, d));
  }

  // ---------------------------------------------------------------- with no interference

  ghost predicate Undisturbed(others: Others) {
    forall k, t :: others(k, t) == t
  }

  lemma {:induction false} EvolvedAlone(tree: Tree, order: seq<string>, others: Others, k: nat)
    requires Undisturbed(others) && k <= |order|
    ensures Evolved(tree, order, others, k) == tree - (set i | 0 <= i < k :: order[i])
  {
    if k > 0 {
      EvolvedAlone(tree, order, others, k - 1);
      assert (set i | 0 <= i < k :: order[i]) == (set i | 0 <= i < k - 1 :: order[i]) + {order[k - 1]};
    }
  }

  lemma UnderIsOwned(base: string, path: string)
    requires Owned(base) && Under(base, path)
    ensures Owned(path)
  {
    var i :| 0 <= i < |BASES| && (base == BASES[i] || Under(BASES[i], base));
    if base != BASES[i] {
      assert path[..|BASES[i]|] == path[..|base|][..|BASES[i]|];
      assert path[|BASES[i]|] == path[..|base|][|BASES[i]|];
    }
    assert path == BASES[i] || Under(BASES[i], path);
  }

  /** Undisturbed, every step meets its recorded object, and every directory is empty by its turn. */
  lemma StepGoesThrough(tree: Tree, order: seq<string>, others: Others, created: map<string, Item>,
                        updates: map<string, string>, k: nat)
    requires TreeOk(tree) && Intact(tree, created, updates) && DeepestFirst(order, created.Keys)
    requires Undisturbed(others) && k < |order|
    ensures Removable(others(k, Evolved(tree, order, others, k)), order[k], Inventory(tree)[order[k]])
  {
    EvolvedAlone(tree, order, others, k);
    var name, now := order[k], Evolved(tree, order, others, k);
    OrderIsRecorded(tree, order, created, updates, k);
    assert others(k, now) == now;
    forall q | q in tree && Under(name, q)
      ensures q !in now && tree[name].kind == Directory
    {
      ChildGone(tree, order, created, updates, k, q);
    }
    hide Evolved, TreeOk, Intact, DeepestFirst, Undisturbed;
    assert name in now && now[name] == tree[name];
  }

  /** The k-th name is an owned object of the tree and was not deleted earlier. */
  lemma OrderIsRecorded(tree: Tree, order: seq<string>, created: map<string, Item>, updates: map<string, string>,
                        k: nat)
    requires Intact(tree, created, updates) && DeepestFirst(order, created.Keys) && k < |order|
    ensures order[k] in tree && Owned(order[k]) && order[k] in Inventory(tree)
    ensures Inventory(tree)[order[k]] == ItemOf(tree[order[k]])
    ensures order[k] !in (set i | 0 <= i < k :: order[i])
  {
    assert order[k] in created.Keys;
    hide Owned, Undrifted, Acceptable;
    forall i | 0 <= i < k
      ensures order[i] != order[k]
    {
      DeletionOrder(order[i], order[k], order[k]);
    }
  }

  /** Anything below the k-th object was deleted before it. */
  lemma ChildGone(tree: Tree, order: seq<string>, created: map<string, Item>, updates: map<string, string>, k: nat,
                  q: string)
    requires TreeOk(tree) && Intact(tree, created, updates) && DeepestFirst(order, created.Keys)
    requires k < |order| && q in tree && Under(order[k], q)
    ensures q in (set i | 0 <= i < k :: order[i]) && order[k] in tree && tree[order[k]].kind == Directory
  {
    var name := order[k];
    OrderIsRecorded(tree, order, created, updates, k);
    UnderIsOwned(name, q);
    assert q in Inventory(tree).Keys;
    DescendantsFirst(name, q);
    hide Owned, Undrifted, Acceptable, Under, DeletedBefore;
    var j :| 0 <= j < |order| && order[j] == q;
    DeletionOrder(q, name, name);
  }

  /** With an intact installation and no interference, the whole installation goes and nothing else:
      the removal cannot stop early, and what is left is the tree without its owned objects. */
  lemma RemovesExactlyTheInstallation(before: Tree, after: Tree, order: seq<string>, others: Others,
                                      created: map<string, Item>, updates: map<string, string>, done: nat,
                                          finished: bool)
    requires TreeOk(before) && Intact(before, created, updates) && DeepestFirst(order, created.Keys)
    requires Undisturbed(others)
    requires forall i :: 0 <= i < |order| ==> order[i] in Inventory(before)
    requires Progress(before, after, order, Inventory(before), others, done, finished)
    ensures finished
    ensures after == map p | p in before && !Owned(p) :: before[p]
  {
    hide TreeOk, Intact, DeepestFirst, Removable, Undisturbed, Inventory, Evolved, Gone;
    assert done <= |order| by { GoneBound(before, order, Inventory(before), others, done); }
    if !finished {
      StepGoesThrough(before, order, others, created, updates, done);
    }
    EvolvedAlone(before, order, others, |order|);
    forall p | p in before
      ensures p in (set i | 0 <= i < |order| :: order[i]) <==> Owned(p)
    {
      OrderIsOwned(before, order, created, updates, p);
    }
  }

  lemma OrderIsOwned(tree: Tree, order: seq<string>, created: map<string, Item>, updates: map<string, string>,
                     p: string)
    requires Intact(tree, created, updates) && DeepestFirst(order, created.Keys) && p in tree
    ensures p in (set i | 0 <= i < |order| :: order[i]) <==> Owned(p)
  {
    assert p in Inventory(tree).Keys <==> Owned(p);
    hide Owned, Undrifted, Acceptable, DeletedBefore;
    if p in created.Keys {
      var i :| 0 <= i < |order| && order[i] == p;
    }
  }
}
