/** Moving one directory tree into another, resumably.

    A tree that exists on one side only is renamed; a file on both sides must be
    the same file and loses its source copy; directories on both sides merge child
    by child.  Operations may fail, and the process may stop at any of them. */
module TreeMerge {
  import opened Options

  datatype Node = File(content: nat) | Dir(children: map<string, Node>)

  type Tree = Option<Node>

  function Child(children: map<string, Node>, name: string): Tree {
    if name in children then Some(children[name]) else None
  }

  /** The children with `name` set to t, or without it. */
  function Put(children: map<string, Node>, name: string, t: Tree): map<string, Node> {
    match t
    case None => children - {name}
    case Some(n) => children[name := n]
  }

  // ---------------------------------------------------------------- what is in a tree

  /** The file at `path` has content x. */
  ghost predicate NodeHas(n: Node, path: seq<string>, x: nat)
    decreases n
  {
    match n
    case File(content) => path == [] && content == x
    case Dir(children) => path != [] && path[0] in children && NodeHas(children[path[0]], path[1..], x)
  }

  ghost predicate Has(t: Tree, path: seq<string>, x: nat) {
    t.Some? && NodeHas(t.value, path, x)
  }

  /** The same contents lie at the same paths in the two trees together. */
  ghost predicate Conserved(s: Tree, t: Tree, s': Tree, t': Tree) {
    forall path, x :: Has(s, path, x) || Has(t, path, x) <==> Has(s', path, x) || Has(t', path, x)
  }

  /** Files that meet are equal, and no file meets a directory. */
  ghost predicate NodesAgree(a: Node, b: Node)
    decreases a
  {
    match (a, b)
    case (File(x), File(y)) => x == y
    case (Dir(c), Dir(d)) => forall name :: name in c && name in d ==> NodesAgree(c[name], d[name])
    case _ => false
  }

  ghost predicate Agree(s: Tree, t: Tree) {
    s.Some? && t.Some? ==> NodesAgree(s.value, t.value)
  }

  ghost function NodesUnion(a: Node, b: Node): Node
    decreases a
  {
    match (a, b)
    case (Dir(c), Dir(d)) =>
      Dir(map name | name in c.Keys + d.Keys ::
        if name !in d then c[name] else if name !in c then d[name] else NodesUnion(c[name], d[name]))
    case _ => b
  }

  ghost function Union(s: Tree, t: Tree): Tree {
    match (s, t)
    case (None, _) => t
    case (Some(a), None) => s
    case (Some(a), Some(b)) => Some(NodesUnion(a, b))
  }

  /** What a path leads to: nothing, a file with its content, or a directory. */
  datatype Place = Nothing | Content(x: nat) | Folder

  ghost function NodeLeads(n: Node, path: seq<string>): Place
    decreases n
  {
    match n
    case File(x) => if path == [] then Content(x) else Nothing
    case Dir(children) =>
      if path == [] then Folder
      else if path[0] in children then NodeLeads(children[path[0]], path[1..]) else Nothing
  }

  ghost function LeadsTo(t: Tree, path: seq<string>): Place {
    match t
    case None => Nothing
    case Some(n) => NodeLeads(n, path)
  }

  /** Content is what NodeHas says. */
  lemma {:induction false} HasIsContent(n: Node, path: seq<string>, x: nat)
    ensures NodeHas(n, path, x) <==> NodeLeads(n, path) == Content(x)
    decreases n
  {
    if n.Dir? && path != [] && path[0] in n.children {
      HasIsContent(n.children[path[0]], path[1..], x);
    }
  }

  /** Two trees do not contradict each other at a path. */
  predicate Compatible(p: Place, q: Place) {
    p == Nothing || q == Nothing || p == q
  }

  lemma {:induction false} AgreeingPaths(a: Node, b: Node, path: seq<string>)
    requires NodesAgree(a, b)
    ensures Compatible(NodeLeads(a, path), NodeLeads(b, path))
    decreases a
  {
    if a.Dir? && b.Dir? && path != [] && path[0] in a.children && path[0] in b.children {
      AgreeingPaths(a.children[path[0]], b.children[path[0]], path[1..]);
    }
  }

  lemma {:induction false} ClashingPath(a: Node, b: Node) returns (path: seq<string>)
    requires !NodesAgree(a, b)
    ensures !Compatible(NodeLeads(a, path), NodeLeads(b, path))
    decreases a
  {
    if a.Dir? && b.Dir? {
      var name :| name in a.children && name in b.children && !NodesAgree(a.children[name], b.children[name]);
      var rest := ClashingPath(a.children[name], b.children[name]);
      path := [name] + rest;
      assert path[1..] == rest;
    } else {
      path := [];
    }
  }

  /** Two trees agree exactly when no path leads to different things in them. */
  lemma AgreeIff(s: Tree, t: Tree)
    ensures Agree(s, t) <==> forall path :: Compatible(LeadsTo(s, path), LeadsTo(t, path))
  {
    if s.Some? && t.Some? {
      if Agree(s, t) {
        forall path
          ensures Compatible(LeadsTo(s, path), LeadsTo(t, path))
        {
          AgreeingPaths(s.value, t.value, path);
        }
      } else {
        var path := ClashingPath(s.value, t.value);
        assert !Compatible(LeadsTo(s, path), LeadsTo(t, path));
      }
    }
  }

  lemma {:induction false} UnionLeads(a: Node, b: Node, path: seq<string>)
    requires NodesAgree(a, b)
    ensures NodeLeads(NodesUnion(a, b), path) == if NodeLeads(b, path) == Nothing then NodeLeads(a, path) else NodeLeads(b, path)
    decreases a
  {
    if a.Dir? && b.Dir? && path != [] && path[0] in a.children && path[0] in b.children {
      UnionLeads(a.children[path[0]], b.children[path[0]], path[1..]);
    }
  }

  /** In the union of two agreeing trees a path leads to what it leads to in either,
      empty directories included. */
  lemma UnionIs(s: Tree, t: Tree, path: seq<string>)
    requires Agree(s, t)
    ensures LeadsTo(Union(s, t), path) == if LeadsTo(s, path) == Nothing then LeadsTo(t, path) else LeadsTo(s, path)
  {
    if s.Some? && t.Some? {
      UnionLeads(s.value, t.value, path);
      AgreeingPaths(s.value, t.value, path);
    }
  }

  // ---------------------------------------------------------------- directory by child

  lemma DirHas(children: map<string, Node>, path: seq<string>, x: nat)
    requires path != []
    ensures Has(Some(Dir(children)), path, x) <==> Has(Child(children, path[0]), path[1..], x)
  {
  }

  /** A directory is conserved when each child is. */
  lemma DirsConserved(c: map<string, Node>, d: map<string, Node>, c': map<string, Node>, d': map<string, Node>)
    requires forall name :: Conserved(Child(c, name), Child(d, name), Child(c', name), Child(d', name))
    ensures Conserved(Some(Dir(c)), Some(Dir(d)), Some(Dir(c')), Some(Dir(d')))
  {
    forall path, x
      ensures Has(Some(Dir(c)), path, x) || Has(Some(Dir(d)), path, x) <==>
              Has(Some(Dir(c')), path, x) || Has(Some(Dir(d')), path, x)
    {
      if path != [] {
        DirHas(c, path, x);
        DirHas(d, path, x);
        DirHas(c', path, x);
        DirHas(d', path, x);
        assert Conserved(Child(c, path[0]), Child(d, path[0]), Child(c', path[0]), Child(d', path[0]));
      }
    }
  }

  lemma DirsAgree(c: map<string, Node>, d: map<string, Node>)
    ensures NodesAgree(Dir(c), Dir(d)) <==> forall name :: Agree(Child(c, name), Child(d, name))
  {
    if NodesAgree(Dir(c), Dir(d)) {
      forall name
        ensures Agree(Child(c, name), Child(d, name))
      {
      }
    }
    if forall name :: Agree(Child(c, name), Child(d, name)) {
      forall name | name in c && name in d
        ensures NodesAgree(c[name], d[name])
      {
        assert Agree(Child(c, name), Child(d, name));
      }
    }
  }

  lemma DirsUnion(c: map<string, Node>, d: map<string, Node>, name: string)
    ensures NodesUnion(Dir(c), Dir(d)).Dir?
    ensures Child(NodesUnion(Dir(c), Dir(d)).children, name) == Union(Child(c, name), Child(d, name))
  {
  }

  /** Two unions are equal when they are equal at each child. */
  lemma SameUnion(c: map<string, Node>, d: map<string, Node>, c': map<string, Node>, d': map<string, Node>)
    requires forall name :: Union(Child(c, name), Child(d, name)) == Union(Child(c', name), Child(d', name))
    ensures NodesUnion(Dir(c), Dir(d)) == NodesUnion(Dir(c'), Dir(d'))
  {
    var u, u' := NodesUnion(Dir(c), Dir(d)).children, NodesUnion(Dir(c'), Dir(d')).children;
    forall name
      ensures Child(u, name) == Child(u', name)
    {
      DirsUnion(c, d, name);
      DirsUnion(c', d', name);
    }
    SameChildren(u, u');
  }

  lemma SameChildren(u: map<string, Node>, u': map<string, Node>)
    requires forall name :: Child(u, name) == Child(u', name)
    ensures u == u'
  {
    forall name
      ensures name in u <==> name in u'
      ensures name in u ==> u[name] == u'[name]
    {
      assert Child(u, name) == Child(u', name);
    }
    assert u.Keys == u'.Keys;
  }

  // ---------------------------------------------------------------- what every step keeps

  /** Nothing is lost or invented, a conflict stays a conflict, and without one
      the union of the two trees stays the same. */
  ghost predicate Safe(s: Tree, t: Tree, s': Tree, t': Tree) {
    && Conserved(s, t, s', t')
    && (Agree(s, t) <==> Agree(s', t'))
    && (Agree(s, t) ==> Union(s', t') == Union(s, t))
  }

  /** A finished move: the source is gone, or an empty directory that could not be
      removed, and the target is the union. */
  ghost predicate Moved(s: Tree, t: Tree, s': Tree, t': Tree) {
    && (s' == None || s' == Some(Dir(map[])))
    && Agree(s, t)
    && t' == Union(s, t)
  }

  /** An empty target directory changes nothing. */
  lemma MadeDirectory(c: map<string, Node>)
    ensures Safe(Some(Dir(c)), None, Some(Dir(c)), Some(Dir(map[])))
  {
    var e: map<string, Node> := map[];
    forall name
      ensures Union(Child(c, name), Child(e, name)) == Child(c, name)
    {
    }
    forall name
      ensures Child(NodesUnion(Dir(c), Dir(e)).children, name) == Child(c, name)
    {
      DirsUnion(c, e, name);
    }
    SameChildren(NodesUnion(Dir(c), Dir(e)).children, c);
  }

  lemma DirsSafe(c: map<string, Node>, d: map<string, Node>, c': map<string, Node>, d': map<string, Node>)
    requires forall name :: Safe(Child(c, name), Child(d, name), Child(c', name), Child(d', name))
    ensures Safe(Some(Dir(c)), Some(Dir(d)), Some(Dir(c')), Some(Dir(d')))
  {
    hide NodesUnion, NodesAgree;
    forall name
      ensures Conserved(Child(c, name), Child(d, name), Child(c', name), Child(d', name))
      ensures Agree(Child(c, name), Child(d, name)) <==> Agree(Child(c', name), Child(d', name))
      ensures Agree(Child(c, name), Child(d, name)) ==>
              Union(Child(c', name), Child(d', name)) == Union(Child(c, name), Child(d, name))
    {
      assert Safe(Child(c, name), Child(d, name), Child(c', name), Child(d', name));
    }
    DirsConserved(c, d, c', d');
    DirsAgree(c, d);
    DirsAgree(c', d');
    if forall name :: Agree(Child(c, name), Child(d, name)) {
      SameUnion(c, d, c', d');
    }
  }

  lemma DirsMoved(c: map<string, Node>, d: map<string, Node>, d': map<string, Node>)
    requires forall name :: Agree(Child(c, name), Child(d, name))
    requires forall name :: Child(d', name) == Union(Child(c, name), Child(d, name))
    ensures NodesAgree(Dir(c), Dir(d)) && Dir(d') == NodesUnion(Dir(c), Dir(d))
  {
    DirsAgree(c, d);
    forall name
      ensures Child(d', name) == Child(NodesUnion(Dir(c), Dir(d)).children, name)
    {
      DirsUnion(c, d, name);
    }
    SameChildren(d', NodesUnion(Dir(c), Dir(d)).children);
  }

  // ---------------------------------------------------------------- the merge

  /** What the k-th file system operation does: it works, it raises, or the
      process stops there. */
  datatype Fate = Works | Raises | Stops

  ghost predicate NoFaults(fates: nat -> Fate) {
    forall k :: fates(k) == Works
  }

  /** One tree that exists in the source.  A failed rename of a file ends in an
      error, since the copy fallback cannot run; of a directory, in a merge into a
      new directory. */
  method MergeNode(source: Node, target: Tree, fates: nat -> Fate, clock: nat)
    returns (source': Tree, target': Tree, clock': nat, ok: bool)
    ensures Safe(Some(source), target, source', target')
    ensures ok ==> Moved(Some(source), target, source', target')
    ensures NoFaults(fates) && Agree(Some(source), target) ==> ok && source' == None
    ensures source.File? && target.None? && !fates(clock).Works? ==>
      !ok && source' == Some(source) && target' == None
    decreases source, 2
  {
    source', target', clock', ok := Some(source), target, clock + 1, false;
    var into := target;
    if target.None? {
      if fates(clock).Works? {
        return None, Some(source), clock', true;
      }
      if fates(clock).Stops? || source.File? {
        return;
      }
      clock' := clock' + 1;
      if !fates(clock + 1).Works? {
        return;
      }
      into := Some(Dir(map[]));
      MadeDirectory(source.children);
    }
    if source.File? {
      if into.value.Dir? || into.value.content != source.content {
        return;
      }
      if fates(clock).Works? {
        return None, target, clock', true;
      }
      return;
    }
    if into.value.File? {
      return;
    }
    source', target', clock', ok := MergeDirectory(source, into.value.children, fates, clock');
  }

  /** Two directories: child by child, then the emptied source is removed. */
  method MergeDirectory(source: Node, children: map<string, Node>, fates: nat -> Fate, clock: nat)
    returns (source': Tree, target': Tree, clock': nat, ok: bool)
    requires source.Dir?
    ensures Safe(Some(source), Some(Dir(children)), source', target')
    ensures ok ==> Moved(Some(source), Some(Dir(children)), source', target')
    ensures NoFaults(fates) && NodesAgree(source, Dir(children)) ==> ok && source' == None
    decreases source, 1
  {
    var left, merged, done;
    left, merged, clock', done := MergeChildren(source, children, fates, clock);
    DirsSafe(source.children, children, left, merged);
    DirsAgree(source.children, children);
    source', target', ok := Some(Dir(left)), Some(Dir(merged)), false;
    if !done {
      return;
    }
    DirsMoved(source.children, children, merged);
    clock' := clock' + 1;
    if left != map[] || fates(clock' - 1).Stops? {
      return;
    }
    ok := true;
    if fates(clock' - 1).Works? {
      source' := None;
    }
  }

  /** The children handled so far are moved, the others are as they were. */
  ghost predicate Halfway(c: map<string, Node>, d: map<string, Node>, left: map<string, Node>, merged: map<string, Node>,
                          todo: set<string>) {
    forall name ::
      if name in c && name !in todo then
        && Safe(Child(c, name), Child(d, name), Child(left, name), Child(merged, name))
        && Moved(Child(c, name), Child(d, name), Child(left, name), Child(merged, name))
      else Child(left, name) == Child(c, name) && Child(merged, name) == Child(d, name)
  }

  lemma SafeSame(s: Tree, t: Tree)
    ensures Safe(s, t, s, t)
  {
  }

  /** Wherever the loop is left, each child is safe; a child just handled may be
      half moved. */
  lemma HalfwaySafe(c: map<string, Node>, d: map<string, Node>, left: map<string, Node>, merged: map<string, Node>,
                    todo: set<string>, name: string, s': Tree, t': Tree)
    requires Halfway(c, d, left, merged, todo)
    requires name in c && Safe(Child(c, name), Child(d, name), s', t')
    ensures forall other :: Safe(Child(c, other), Child(d, other),
                                 Child(Put(left, name, s'), other), Child(Put(merged, name, t'), other))
  {
    hide Safe, Moved;
    forall other
      ensures Safe(Child(c, other), Child(d, other), Child(Put(left, name, s'), other), Child(Put(merged, name, t'), other))
    {
      SafeSame(Child(c, other), Child(d, other));
    }
  }

  lemma HalfwayOn(c: map<string, Node>, d: map<string, Node>, left: map<string, Node>, merged: map<string, Node>,
                  todo: set<string>, name: string, s': Tree, t': Tree)
    requires Halfway(c, d, left, merged, todo)
    requires name in todo && name in c
    requires Safe(Child(c, name), Child(d, name), s', t') && Moved(Child(c, name), Child(d, name), s', t')
    ensures Halfway(c, d, Put(left, name, s'), Put(merged, name, t'), todo - {name})
  {
    hide Safe, Moved;
    forall other
      ensures
        if other in c && other !in todo - {name} then
          && Safe(Child(c, other), Child(d, other), Child(Put(left, name, s'), other), Child(Put(merged, name, t'), other))
          && Moved(Child(c, other), Child(d, other), Child(Put(left, name, s'), other), Child(Put(merged, name, t'), other))
        else
          && Child(Put(left, name, s'), other) == Child(c, other)
          && Child(Put(merged, name, t'), other) == Child(d, other)
    {
    }
  }

  lemma AllHandled(c: map<string, Node>, d: map<string, Node>, left: map<string, Node>, merged: map<string, Node>)
    requires Halfway(c, d, left, merged, {})
    ensures forall name :: Safe(Child(c, name), Child(d, name), Child(left, name), Child(merged, name))
    ensures forall name :: Agree(Child(c, name), Child(d, name))
    ensures forall name :: Child(merged, name) == Union(Child(c, name), Child(d, name))
  {
    forall name
      ensures Safe(Child(c, name), Child(d, name), Child(left, name), Child(merged, name))
      ensures Agree(Child(c, name), Child(d, name))
      ensures Child(merged, name) == Union(Child(c, name), Child(d, name))
    {
      SafeSame(Child(c, name), Child(d, name));
    }
  }

  method MergeChildren(source: Node, children: map<string, Node>, fates: nat -> Fate, clock: nat)
    returns (left: map<string, Node>, merged: map<string, Node>, clock': nat, ok: bool)
    requires source.Dir?
    ensures forall name :: Safe(Child(source.children, name), Child(children, name), Child(left, name), Child(merged, name))
    ensures ok ==> forall name :: Agree(Child(source.children, name), Child(children, name))
    ensures ok ==> forall name :: Child(merged, name) == Union(Child(source.children, name), Child(children, name))
    ensures NoFaults(fates) && (forall name :: Agree(Child(source.children, name), Child(children, name))) ==>
      ok && left == map[]
    decreases source, 0
  {
    hide Safe, Moved, Agree, Union;
    left, merged, clock', ok := source.children, children, clock, false;
    ghost var smooth := NoFaults(fates) && forall name :: Agree(Child(source.children, name), Child(children, name));
    var todo := source.children.Keys;
    while todo != {}
      invariant todo <= source.children.Keys && left.Keys <= source.children.Keys
      invariant Halfway(source.children, children, left, merged, todo)
      invariant smooth ==> forall name :: name in source.children && name !in todo ==> Child(left, name) == None
      decreases |todo|
    {
      var name :| name in todo;
      var s', t', done;
      s', t', clock', done := MergeNode(source.children[name], Child(children, name), fates, clock');
      HalfwaySafe(source.children, children, left, merged, todo, name, s', t');
      if !done {
        left, merged := Put(left, name, s'), Put(merged, name, t');
        return;
      }
      HalfwayOn(source.children, children, left, merged, todo, name, s', t');
      left, merged, todo := Put(left, name, s'), Put(merged, name, t'), todo - {name};
    }
    ok := true;
    AllHandled(source.children, children, left, merged);
  }

  /** Moving a tree, which may be missing. */
  method MergeMove(source: Tree, target: Tree, fates: nat -> Fate)
    returns (source': Tree, target': Tree, ok: bool)
    ensures Safe(source, target, source', target')
    ensures ok ==> Moved(source, target, source', target')
    ensures NoFaults(fates) ==> (ok <==> Agree(source, target) && !(source.None? && target.None?))
    ensures NoFaults(fates) && ok ==> source' == None
  {
    if source.None? {
      SafeSame(source, target);
      return source, target, target.Some?;
    }
    var clock;
    source', target', clock, ok := MergeNode(source.value, target, fates, 0);
  }

  lemma SafeAgain(s: Tree, t: Tree, s1: Tree, t1: Tree, s2: Tree, t2: Tree)
    requires Safe(s, t, s1, t1) && Safe(s1, t1, s2, t2)
    ensures Safe(s, t, s2, t2)
  {
    assert forall path, x :: Has(s1, path, x) || Has(t1, path, x) <==> Has(s2, path, x) || Has(t2, path, x);
  }

  /** Any number of runs that were cut short or failed anywhere, then one without
      faults: it succeeds exactly when the trees agreed at the start and one of them was
      there, and then the target is the union of the two trees as they were then. */
  method Resumed(source: Tree, target: Tree, runs: seq<nat -> Fate>, last: nat -> Fate)
    returns (source': Tree, target': Tree, ok: bool)
    requires NoFaults(last)
    ensures Safe(source, target, source', target')
    ensures ok <==> Agree(source, target) && !(source.None? && target.None?)
    ensures ok ==> source' == None && target' == Union(source, target)
  {
    var s, t := source, target;
    SafeSame(s, t);
    for i := 0 to |runs|
      invariant Safe(source, target, s, t)
    {
      var s1, t1, done := MergeMove(s, t, runs[i]);
      SafeAgain(source, target, s, t, s1, t1);
      s, t := s1, t1;
    }
    source', target', ok := MergeMove(s, t, last);
    SafeAgain(source, target, s, t, source', target');
  }

  lemma {:induction false} OneContent(n: Node, path: seq<string>, x: nat, y: nat)
    requires NodeHas(n, path, x) && NodeHas(n, path, y)
    ensures x == y
    decreases n
  {
    if n.Dir? {
      OneContent(n.children[path[0]], path[1..], x, y);
    }
  }

  /** Where two different files meet, neither is deleted by any run. */
  lemma ConflictKeepsBoth(s: Tree, t: Tree, s': Tree, t': Tree, path: seq<string>, x: nat, y: nat)
    requires Safe(s, t, s', t')
    requires Has(s, path, x) && Has(t, path, y) && x != y
    ensures (Has(s', path, x) && Has(t', path, y)) || (Has(t', path, x) && Has(s', path, y))
  {
    if Has(s', path, x) && Has(s', path, y) {
      OneContent(s'.value, path, x, y);
    }
    if Has(t', path, x) && Has(t', path, y) {
      OneContent(t'.value, path, x, y);
    }
  }

  /** After a finished move the target holds every file of both trees, and no other. */
  lemma MovedHoldsAll(s: Tree, t: Tree, s': Tree, t': Tree, path: seq<string>, x: nat)
    requires Safe(s, t, s', t') && Moved(s, t, s', t')
    ensures Has(t', path, x) <==> Has(s, path, x) || Has(t, path, x)
    ensures !Has(s', path, x)
  {
    assert Has(s, path, x) || Has(t, path, x) <==> Has(s', path, x) || Has(t', path, x);
  }
}
