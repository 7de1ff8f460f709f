/** The bounded walk of a mount's write-back cache on disk. */
module Scan {
  import opened Base

  /** One path component, and whether it renders as UTF-8. */
  datatype Component = Component(text: string, utf8: bool)

  /** A path below the metadata root, which is itself `[]`. */
  type Path = seq<Component>

  /** What a descriptor file turned out to be: unreadable, or a parsed `Dirty` flag. */
  datatype Kind = Directory | Descriptor(dirty: Option<bool>) | Special
  datatype DirEntry = Broken | Entry(name: Component, kind: Kind)
  datatype Listing = Missing | Refused | Listed(entries: seq<DirEntry>)

  /**
   * The disk as the walk meets it. Each answer may depend on when it is asked, so a tree
   * that changes, or that loops through itself for ever, is one of these too.
   */
  datatype Disk = Disk(list: (nat, Path) -> Listing, dataSize: (nat, Path) -> Option<nat>)

  datatype DirtyFile = DirtyFile(path: Path, bytes: Option<nat>)
  datatype CacheScan = CacheScan(files: seq<DirtyFile>, unreadable: nat, truncated: bool, rootPresent: bool)
  datatype ScanResult = Scanned(scan: CacheScan) | RootUnreadable

  /** The locals of the walk. */
  datatype Walk = Walk(stack: seq<Path>, visited: nat, files: seq<DirtyFile>, unreadable: nat,
                       truncated: bool, clock: nat) {
    function Measure(max: nat): int { 2 * (max - visited) + |stack| }

    function Result(rootPresent: bool): ScanResult {
      Scanned(CacheScan(files, unreadable, truncated, rootPresent))
    }
  }

  const START := Walk([[]], 0, [], 0, false, 0)

  predicate Nameable(path: Path) { forall c <- path :: c.utf8 }

  /** The name a client shows: the components of a path joined by `/`. */
  function NameOf(path: Path): string {
    if path == [] then "" else if |path| == 1 then path[0].text
    else path[0].text + "/" + NameOf(path[1..])
  }

  predicate IsComplete(s: CacheScan) { s.unreadable == 0 && !s.truncated }

  /** One entry, once it has been counted against the cap. */
  function VisitEntry(disk: Disk, w: Walk, dir: Path, e: DirEntry): Walk {
    var seen := w.(visited := w.visited + 1, clock := w.clock + 1);
    match e
    case Broken => seen.(unreadable := w.unreadable + 1)
    case Entry(name, Directory) => seen.(stack := w.stack + [dir + [name]])
    case Entry(name, Descriptor(Some(true))) =>
      var path := dir + [name];
      if !Nameable(path) then seen.(unreadable := w.unreadable + 1)
      else seen.(files := w.files + [DirtyFile(path, disk.dataSize(w.clock, path))])
    case Entry(name, Descriptor(Some(false))) => seen
    case Entry(name, Descriptor(None)) => seen.(unreadable := w.unreadable + 1)
    case Entry(name, Special) => seen.(unreadable := w.unreadable + 1)
  }

  /** The entries of one directory, up to the cap. */
  function VisitAll(disk: Disk, max: nat, w: Walk, dir: Path, entries: seq<DirEntry>): (r: Walk)
    requires !w.truncated && w.visited <= max
    ensures w.visited <= r.visited <= max && r.Measure(max) <= w.Measure(max)
    decreases |entries|
  {
    if entries == [] then w
    else if w.visited >= max then w.(truncated := true)
    else VisitAll(disk, max, VisitEntry(disk, w, dir, entries[0]), dir, entries[1..])
  }

  /** The walk from any point of it. Ends for every disk: see `Walk.Measure`. */
  function Run(disk: Disk, max: nat, w: Walk): ScanResult
    requires !w.truncated && w.visited <= max
    decreases w.Measure(max)
  {
    if w.stack == [] then w.Result(true)
    else
      var dir := w.stack[|w.stack| - 1];
      var popped := w.(stack := w.stack[..|w.stack| - 1], clock := w.clock + 1);
      match disk.list(w.clock, dir)
      case Listed(entries) =>
        var after := VisitAll(disk, max, popped, dir, entries);
        if after.truncated then after.Result(true) else Run(disk, max, after)
      case Missing =>
        if dir == [] then popped.Result(false)
        else Run(disk, max, popped.(unreadable := w.unreadable + 1))
      case Refused =>
        if dir == [] then RootUnreadable
        else Run(disk, max, popped.(unreadable := w.unreadable + 1))
  }

  /** `scan_bounded`: an explicit stack, a visit cap and a running result. */
  method ScanBounded(disk: Disk, max: nat) returns (result: ScanResult)
    ensures result == Run(disk, max, START)
  {
    var w := START;
    while w.stack != []
      invariant !w.truncated && w.visited <= max
      invariant Run(disk, max, w) == Run(disk, max, START)
      decreases w.Measure(max)
    {
      var dir := w.stack[|w.stack| - 1];
      var listing := disk.list(w.clock, dir);
      w := w.(stack := w.stack[..|w.stack| - 1], clock := w.clock + 1);
      if !listing.Listed? {
        if dir == [] {
          return if listing.Missing? then w.Result(false) else RootUnreadable;
        }
        w := w.(unreadable := w.unreadable + 1);
        continue;
      }
      ghost var popped := w;
      var entries := listing.entries;
      var i := 0;
      while i < |entries|
        invariant 0 <= i <= |entries|
        invariant !w.truncated && w.visited <= max
        invariant VisitAll(disk, max, w, dir, entries[i..]) == VisitAll(disk, max, popped, dir, entries)
      {
        assert entries[i..][0] == entries[i] && entries[i..][1..] == entries[i + 1..];
        if w.visited >= max {
          w := w.(truncated := true);
          return w.Result(true);
        }
        w := VisitEntry(disk, w, dir, entries[i]);
        i := i + 1;
      }
    }
    return w.Result(true);
  }

  // --- the reference: a tree that holds still -----------------------------------------

  datatype Tree = Unlistable | Tree(entries: seq<TreeEntry>)
  datatype TreeEntry =
    | TreeBroken
    | TreeDir(name: Component, sub: Tree)
    | TreeFile(name: Component, dirty: Option<bool>, bytes: Option<nat>)
    | TreeSpecial(name: Component)

  function Shown(e: TreeEntry): DirEntry {
    match e
    case TreeBroken => Broken
    case TreeDir(name, _) => Entry(name, Directory)
    case TreeFile(name, dirty, _) => Entry(name, Descriptor(dirty))
    case TreeSpecial(name) => Entry(name, Special)
  }

  function ShownAll(es: seq<TreeEntry>): seq<DirEntry> {
    if es == [] then [] else [Shown(es[0])] + ShownAll(es[1..])
  }

  /** The disk answers as `tree` does below `path`, whenever it is asked. */
  ghost predicate Mirrors(disk: Disk, path: Path, tree: Tree)
    decreases tree
  {
    match tree
    case Unlistable => forall t: nat :: !disk.list(t, path).Listed?
    case Tree(es) =>
      && (forall t: nat :: disk.list(t, path) == Listed(ShownAll(es)))
      && forall i :: 0 <= i < |es| ==> MirrorsAt(disk, path, es[i])
  }

  ghost predicate MirrorsAt(disk: Disk, path: Path, e: TreeEntry)
    decreases e
  {
    match e
    case TreeDir(name, sub) => Mirrors(disk, path + [name], sub)
    case TreeFile(name, _, bytes) => forall t: nat :: disk.dataSize(t, path + [name]) == bytes
    case _ => true
  }

  /**
   * What a tree holds: its entries, how many of them are the dirty file `f`, and how many
   * of them could not be read or named.
   */
  datatype Account = Account(entries: nat, copies: nat, bad: nat) {
    function Plus(o: Account): Account { Account(entries + o.entries, copies + o.copies, bad + o.bad) }
  }

  const NOTHING := Account(0, 0, 0)
  const AN_ENTRY := Account(1, 0, 0)
  const A_BAD_ENTRY := Account(1, 0, 1)

  function Holds(path: Path, tree: Tree, f: DirtyFile): Account
    decreases tree
  {
    match tree
    case Unlistable => Account(0, 0, 1)
    case Tree(es) => HoldsAll(path, es, f)
  }

  function HoldsAt(path: Path, e: TreeEntry, f: DirtyFile): Account
    decreases e
  {
    match e
    case TreeBroken => A_BAD_ENTRY
    case TreeSpecial(_) => A_BAD_ENTRY
    case TreeDir(name, sub) => AN_ENTRY.Plus(Holds(path + [name], sub, f))
    case TreeFile(name, None, _) => A_BAD_ENTRY
    case TreeFile(name, Some(false), _) => AN_ENTRY
    case TreeFile(name, Some(true), bytes) =>
      if !Nameable(path + [name]) then A_BAD_ENTRY
      else if f == DirtyFile(path + [name], bytes) then Account(1, 1, 0)
      else AN_ENTRY
  }

  function HoldsAll(path: Path, es: seq<TreeEntry>, f: DirtyFile): Account
    decreases es
  {
    if es == [] then NOTHING else HoldsAt(path, es[0], f).Plus(HoldsAll(path, es[1..], f))
  }

  // --- what the stack still owes ------------------------------------------------------

  /** A directory on the stack: the tree below it, and what that tree holds. */
  datatype Debt = Debt(tree: Tree, share: Account)

  ghost predicate Owes(disk: Disk, path: Path, d: Debt, f: DirtyFile) {
    path != [] && Mirrors(disk, path, d.tree) && d.share == Holds(path, d.tree, f)
  }

  ghost predicate StackOwes(disk: Disk, stack: seq<Path>, debts: seq<Debt>, f: DirtyFile) {
    |stack| == |debts| && forall i :: 0 <= i < |stack| ==> Owes(disk, stack[i], debts[i], f)
  }

  function Owed(debts: seq<Debt>): Account {
    if debts == [] then NOTHING else Owed(debts[..|debts| - 1]).Plus(debts[|debts| - 1].share)
  }

  /** How often a file is reported. */
  function Copies(files: seq<DirtyFile>, f: DirtyFile): nat {
    if files == [] then 0
    else Copies(files[..|files| - 1], f) + (if files[|files| - 1] == f then 1 else 0)
  }

  lemma CopiesSnoc(files: seq<DirtyFile>, g: DirtyFile, f: DirtyFile)
    ensures Copies(files + [g], f) == Copies(files, f) + (if g == f then 1 else 0)
  {
    assert (files + [g])[..|files|] == files;
  }

  function Found(w: Walk, f: DirtyFile): Account {
    Account(w.visited, Copies(w.files, f), w.unreadable)
  }

  /** The account a walk keeps: found so far, still on the stack, and left to visit here. */
  ghost predicate Balanced(w: Walk, debts: seq<Debt>, f: DirtyFile, left: Account, total: Account) {
    var found, owed := Found(w, f), Owed(debts);
    && found.entries + owed.entries + left.entries == total.entries
    && found.copies + owed.copies + left.copies == total.copies
    && found.bad + owed.bad + left.bad == total.bad
  }

  lemma PushOwes(debts: seq<Debt>, d: Debt)
    ensures Owed(debts + [d]) == Owed(debts).Plus(d.share)
  {
    assert (debts + [d])[..|debts|] == debts;
  }

  lemma PushStack(disk: Disk, stack: seq<Path>, debts: seq<Debt>, path: Path, d: Debt, f: DirtyFile)
    requires StackOwes(disk, stack, debts, f) && Owes(disk, path, d, f)
    ensures StackOwes(disk, stack + [path], debts + [d], f)
  {}

  lemma PopStack(disk: Disk, stack: seq<Path>, debts: seq<Debt>, f: DirtyFile)
    requires StackOwes(disk, stack, debts, f) && stack != []
    ensures StackOwes(disk, stack[..|stack| - 1], debts[..|debts| - 1], f)
  {}

  /** What one entry adds to the walk itself; a directory's contents go on the stack. */
  lemma EntryAdds(disk: Disk, w: Walk, dir: Path, e: TreeEntry, f: DirtyFile)
    requires MirrorsAt(disk, dir, e)
    ensures var w' := VisitEntry(disk, w, dir, Shown(e));
      && (e.TreeDir? ==> Found(w', f) == Found(w, f).Plus(AN_ENTRY) && w'.stack == w.stack + [dir + [e.name]])
      && (!e.TreeDir? ==> Found(w', f) == Found(w, f).Plus(HoldsAt(dir, e, f)) && w'.stack == w.stack)
  {
    if e.TreeFile? { CopiesSnoc(w.files, DirtyFile(dir + [e.name], e.bytes), f); }
  }

  /** Visiting one entry moves its share of the account and loses none of it. */
  lemma EntryKeepsAccount(w: Walk, w': Walk, debts: seq<Debt>, f: DirtyFile,
                          share: Account, pushed: Option<Debt>, rest: Account, total: Account)
    requires Balanced(w, debts, f, share.Plus(rest), total)
    requires pushed.Some? ==> share == AN_ENTRY.Plus(pushed.value.share) && Found(w', f) == Found(w, f).Plus(AN_ENTRY)
    requires pushed.None? ==> Found(w', f) == Found(w, f).Plus(share)
    ensures Balanced(w', if pushed.Some? then debts + [pushed.value] else debts, f, rest, total)
  {
    if pushed.Some? { PushOwes(debts, pushed.value); }
  }

  /** The debt an entry leaves on the stack, if it leaves one. */
  function DebtOf(dir: Path, e: TreeEntry, f: DirtyFile): Option<Debt> {
    if e.TreeDir? then Some(Debt(e.sub, Holds(dir + [e.name], e.sub, f))) else None
  }

  lemma EntryKeepsStack(disk: Disk, w: Walk, debts: seq<Debt>, dir: Path, e: TreeEntry, f: DirtyFile)
    requires StackOwes(disk, w.stack, debts, f) && MirrorsAt(disk, dir, e)
    ensures var pushed := DebtOf(dir, e, f);
      StackOwes(disk, VisitEntry(disk, w, dir, Shown(e)).stack,
                if pushed.Some? then debts + [pushed.value] else debts, f)
  {
    EntryAdds(disk, w, dir, e, f);
    if e.TreeDir? { PushStack(disk, w.stack, debts, dir + [e.name], DebtOf(dir, e, f).value, f); }
  }

  lemma EntryStep(disk: Disk, w: Walk, debts: seq<Debt>, dir: Path, e: TreeEntry, f: DirtyFile,
                  rest: Account, total: Account) returns (after: seq<Debt>)
    requires StackOwes(disk, w.stack, debts, f) && MirrorsAt(disk, dir, e)
    requires Balanced(w, debts, f, HoldsAt(dir, e, f).Plus(rest), total)
    ensures var w' := VisitEntry(disk, w, dir, Shown(e));
      StackOwes(disk, w'.stack, after, f) && Balanced(w', after, f, rest, total)
  {
    var pushed := DebtOf(dir, e, f);
    EntryAdds(disk, w, dir, e, f);
    EntryKeepsStack(disk, w, debts, dir, e, f);
    EntryKeepsAccount(w, VisitEntry(disk, w, dir, Shown(e)), debts, f, HoldsAt(dir, e, f), pushed, rest, total);
    after := if pushed.Some? then debts + [pushed.value] else debts;
  }

  /** A walk cut short has met more than the cap, and nothing that is not there. */
  ghost predicate CutShort(w: Walk, f: DirtyFile, max: nat, total: Account) {
    total.entries > max && Copies(w.files, f) <= total.copies && w.unreadable <= total.bad
  }

  ghost predicate MirrorsEntries(disk: Disk, dir: Path, es: seq<TreeEntry>) {
    forall i :: 0 <= i < |es| ==> MirrorsAt(disk, dir, es[i])
  }

  lemma {:induction false} DirectoryKeepsAccount(
      disk: Disk, max: nat, w: Walk, debts: seq<Debt>, dir: Path, es: seq<TreeEntry>,
      f: DirtyFile, total: Account) returns (after: seq<Debt>)
    requires !w.truncated && w.visited <= max
    requires StackOwes(disk, w.stack, debts, f) && MirrorsEntries(disk, dir, es)
    requires Balanced(w, debts, f, HoldsAll(dir, es, f), total)
    ensures var w' := VisitAll(disk, max, w, dir, ShownAll(es));
      && (w'.truncated ==> CutShort(w', f, max, total))
      && (!w'.truncated ==> StackOwes(disk, w'.stack, after, f) && Balanced(w', after, f, NOTHING, total))
    decreases |es|
  {
    after := debts;
    if es != [] {
      assert ShownAll(es)[0] == Shown(es[0]) && ShownAll(es)[1..] == ShownAll(es[1..]);
      if w.visited < max {
        var w' := VisitEntry(disk, w, dir, Shown(es[0]));
        after := EntryStep(disk, w, debts, dir, es[0], f, HoldsAll(dir, es[1..], f), total);
        after := DirectoryKeepsAccount(disk, max, w', after, dir, es[1..], f, total);
      } else {
        assert HoldsAt(dir, es[0], f).entries >= 1;
      }
    }
  }

  /** The whole account of a finished walk, as far as the file `f` goes. */
  ghost predicate Settled(r: ScanResult, f: DirtyFile, max: nat, total: Account) {
    && r.Scanned? && r.scan.rootPresent
    && (r.scan.truncated <==> total.entries > max)
    && Copies(r.scan.files, f) <= total.copies && r.scan.unreadable <= total.bad
    && (!r.scan.truncated ==>
          Copies(r.scan.files, f) == total.copies && r.scan.unreadable == total.bad)
  }

  function Popped(w: Walk): Walk
    requires w.stack != []
  {
    w.(stack := w.stack[..|w.stack| - 1], clock := w.clock + 1)
  }

  /** The two ways on from a directory that is not the root. */
  lemma RunFrom(disk: Disk, max: nat, w: Walk, dir: Path, tree: Tree)
    requires !w.truncated && w.visited <= max
    requires w.stack != [] && w.stack[|w.stack| - 1] == dir && Mirrors(disk, dir, tree)
    requires dir != [] || tree.Tree?
    ensures tree.Unlistable? ==>
      Run(disk, max, w) == Run(disk, max, Popped(w).(unreadable := w.unreadable + 1))
    ensures tree.Tree? ==>
      var next := VisitAll(disk, max, Popped(w), dir, ShownAll(tree.entries));
      Run(disk, max, w) == if next.truncated then next.Result(true) else Run(disk, max, next)
  {}

  /** Taking a directory off the stack: what it holds becomes what is left to visit. */
  lemma PopKeepsAccount(w: Walk, debts: seq<Debt>, f: DirtyFile, total: Account)
    requires w.stack != [] && debts != [] && Balanced(w, debts, f, NOTHING, total)
    ensures var n := |debts| - 1; Balanced(Popped(w), debts[..n], f, debts[n].share, total)
  {}

  lemma {:induction false} StackIsSettled(disk: Disk, max: nat, w: Walk, debts: seq<Debt>,
                                          f: DirtyFile, total: Account)
    requires !w.truncated && w.visited <= max && StackOwes(disk, w.stack, debts, f)
    requires Balanced(w, debts, f, NOTHING, total)
    ensures Settled(Run(disk, max, w), f, max, total)
    decreases w.Measure(max), 0
  {
    if w.stack != [] {
      var n := |debts| - 1;
      var dir, tree := w.stack[n], debts[n].tree;
      assert Owes(disk, dir, debts[n], f);
      PopStack(disk, w.stack, debts, f);
      PopKeepsAccount(w, debts, f, total);
      RunFrom(disk, max, w, dir, tree);
      if tree.Unlistable? {
        StackIsSettled(disk, max, Popped(w).(unreadable := w.unreadable + 1), debts[..n], f, total);
      } else {
        ListedSettles(disk, max, Popped(w), debts[..n], dir, tree.entries, f, total);
      }
    }
  }

  lemma {:induction false} ListedSettles(disk: Disk, max: nat, w: Walk, debts: seq<Debt>, dir: Path,
                                         es: seq<TreeEntry>, f: DirtyFile, total: Account)
    requires !w.truncated && w.visited <= max
    requires StackOwes(disk, w.stack, debts, f) && MirrorsEntries(disk, dir, es)
    requires Balanced(w, debts, f, HoldsAll(dir, es, f), total)
    ensures
      var next := VisitAll(disk, max, w, dir, ShownAll(es));
      Settled(if next.truncated then next.Result(true) else Run(disk, max, next), f, max, total)
    decreases w.Measure(max), 1
  {
    var after := DirectoryKeepsAccount(disk, max, w, debts, dir, es, f, total);
    var next := VisitAll(disk, max, w, dir, ShownAll(es));
    if !next.truncated { StackIsSettled(disk, max, next, after, f, total); }
  }

  lemma RootSettles(disk: Disk, max: nat, w: Walk, root: Path, es: seq<TreeEntry>, f: DirtyFile,
                    debts: seq<Debt>)
    requires !w.truncated && w.visited == 0 && w.files == [] && w.unreadable == 0 && debts == []
    requires w.stack == [root] && Mirrors(disk, root, Tree(es))
    ensures Settled(Run(disk, max, w), f, max, HoldsAll(root, es, f))
  {
    RunFrom(disk, max, w, root, Tree(es));
    ListedSettles(disk, max, Popped(w), debts, root, es, f, HoldsAll(root, es, f));
  }

  /**
   * On a tree that holds still below a listable root, the walk is cut short exactly when
   * there are more entries than the cap; otherwise every dirty file is reported exactly as
   * often as the tree holds it, and everything unreadable was counted. Cut short, it still
   * reports nothing that is not there.
   */
  lemma ScanIsExact(disk: Disk, max: nat, es: seq<TreeEntry>, f: DirtyFile)
    requires Mirrors(disk, [], Tree(es))
    ensures
      var r, total := Run(disk, max, START), HoldsAll([], es, f);
      && r.Scanned? && r.scan.rootPresent
      && (r.scan.truncated <==> total.entries > max)
      && (IsComplete(r.scan) <==> total.entries <= max && total.bad == 0)
      && Copies(r.scan.files, f) <= total.copies
      && (!r.scan.truncated ==>
            Copies(r.scan.files, f) == total.copies && r.scan.unreadable == total.bad)
  {
    RootSettles(disk, max, START, [], es, f, []);
  }

  /** A root that is gone is told apart from an empty one, and from one that cannot be read. */
  lemma RootDecidesPresence(disk: Disk, max: nat)
    ensures disk.list(0, []).Missing? ==>
      Run(disk, max, START) == Scanned(CacheScan([], 0, false, false))
    ensures disk.list(0, []).Refused? <==> Run(disk, max, START) == RootUnreadable
    ensures disk.list(0, []).Listed? <==>
      Run(disk, max, START).Scanned? && Run(disk, max, START).scan.rootPresent
  {
    if disk.list(0, []).Listed? {
      var popped := START.(stack := [], clock := 1);
      assert START.stack[..0] == [];
      var after := VisitAll(disk, max, popped, [], disk.list(0, []).entries);
      ChildrenAreNotTheRoot(disk, max, popped, [], disk.list(0, []).entries);
      if !after.truncated { OnlyTheRootEndsEarly(disk, max, after); }
    }
  }

  lemma {:induction false} ChildrenAreNotTheRoot(disk: Disk, max: nat, w: Walk, dir: Path, entries: seq<DirEntry>)
    requires !w.truncated && w.visited <= max && [] !in w.stack
    ensures [] !in VisitAll(disk, max, w, dir, entries).stack
    decreases |entries|
  {
    if entries != [] && w.visited < max {
      ChildrenAreNotTheRoot(disk, max, VisitEntry(disk, w, dir, entries[0]), dir, entries[1..]);
    }
  }

  lemma {:induction false} OnlyTheRootEndsEarly(disk: Disk, max: nat, w: Walk)
    requires !w.truncated && w.visited <= max && [] !in w.stack
    ensures Run(disk, max, w).Scanned? && Run(disk, max, w).scan.rootPresent
    decreases w.Measure(max)
  {
    if w.stack != [] {
      var dir := w.stack[|w.stack| - 1];
      var popped := w.(stack := w.stack[..|w.stack| - 1], clock := w.clock + 1);
      match disk.list(w.clock, dir) {
        case Listed(entries) =>
          ChildrenAreNotTheRoot(disk, max, popped, dir, entries);
          var after := VisitAll(disk, max, popped, dir, entries);
          if !after.truncated { OnlyTheRootEndsEarly(disk, max, after); }
        case _ =>
          OnlyTheRootEndsEarly(disk, max, popped.(unreadable := w.unreadable + 1));
      }
    }
  }

  // --- each file once -----------------------------------------------------------------

  /** Sibling names differ, as they do in every real directory. */
  ghost predicate DistinctNames(tree: Tree)
    decreases tree
  {
    match tree case Unlistable => true case Tree(es) => DistinctNamesAll(es)
  }

  ghost predicate DistinctNamesAt(e: TreeEntry)
    decreases e
  {
    e.TreeDir? ==> DistinctNames(e.sub)
  }

  ghost predicate DistinctNamesAll(es: seq<TreeEntry>)
    decreases es
  {
    es != [] ==>
      && DistinctNamesAt(es[0])
      && (forall e <- es[1..] :: !e.TreeBroken? && !es[0].TreeBroken? ==> e.name != es[0].name)
      && DistinctNamesAll(es[1..])
  }

  lemma {:induction false} DirtyLiesAt(path: Path, e: TreeEntry, f: DirtyFile)
    requires HoldsAt(path, e, f).copies > 0
    ensures path < f.path && !e.TreeBroken? && f.path[|path|] == e.name
    decreases e
  {
    if e.TreeDir? { var _ := DirtyLiesBelow(path + [e.name], e.sub.entries, f); }
  }

  lemma {:induction false} DirtyLiesBelow(path: Path, es: seq<TreeEntry>, f: DirtyFile)
    returns (e: TreeEntry)
    requires HoldsAll(path, es, f).copies > 0
    ensures path < f.path
    ensures e in es && !e.TreeBroken? && f.path[|path|] == e.name
    decreases es
  {
    if HoldsAt(path, es[0], f).copies > 0 {
      e := es[0];
      DirtyLiesAt(path, e, f);
    } else {
      e := DirtyLiesBelow(path, es[1..], f);
    }
  }

  lemma {:induction false} DirtyOnceAt(path: Path, e: TreeEntry, f: DirtyFile)
    requires DistinctNamesAt(e)
    ensures HoldsAt(path, e, f).copies <= 1
    decreases e
  {
    if e.TreeDir? && e.sub.Tree? { DirtyOnce(path + [e.name], e.sub.entries, f); }
  }

  /** Where sibling names differ, no dirty file is counted twice. */
  lemma {:induction false} DirtyOnce(path: Path, es: seq<TreeEntry>, f: DirtyFile)
    requires DistinctNamesAll(es)
    ensures HoldsAll(path, es, f).copies <= 1
    decreases es
  {
    if es != [] {
      DirtyOnceAt(path, es[0], f);
      DirtyOnce(path, es[1..], f);
      if HoldsAt(path, es[0], f).copies > 0 && HoldsAll(path, es[1..], f).copies > 0 {
        DirtyLiesAt(path, es[0], f);
        var other := DirtyLiesBelow(path, es[1..], f);
        assert false;
      }
    }
  }

  // --- the byte total -----------------------------------------------------------------

  function Saturating(a: nat, b: nat): nat { Min(a + b, U64_MAX) }

  /** `known_bytes`: a saturating fold over the files that could be measured. */
  function KnownBytes(files: seq<DirtyFile>): nat {
    if files == [] then 0
    else match files[|files| - 1].bytes
      case Some(b) => Saturating(KnownBytes(files[..|files| - 1]), b)
      case None => KnownBytes(files[..|files| - 1])
  }

  function TotalBytes(files: seq<DirtyFile>): nat {
    if files == [] then 0
    else TotalBytes(files[1..]) + (if files[0].bytes.Some? then files[0].bytes.value else 0)
  }

  lemma {:induction false} TotalBytesSnoc(files: seq<DirtyFile>, f: DirtyFile)
    ensures TotalBytes(files + [f]) == TotalBytes(files) + (if f.bytes.Some? then f.bytes.value else 0)
  {
    if files == [] {
      assert (files + [f])[1..] == [];
    } else {
      assert (files + [f])[1..] == files[1..] + [f];
      TotalBytesSnoc(files[1..], f);
    }
  }

  /** The total never wraps: it is the true sum, or the ceiling. */
  lemma {:induction false} KnownBytesIsTheSum(files: seq<DirtyFile>)
    ensures KnownBytes(files) == Min(TotalBytes(files), U64_MAX)
  {
    if files != [] {
      var n := |files| - 1;
      KnownBytesIsTheSum(files[..n]);
      TotalBytesSnoc(files[..n], files[n]);
      assert files[..n] + [files[n]] == files;
    }
  }

  /** The dirty files a tree holds, with their sizes, in the order of its entries. */
  function DirtyIn(path: Path, tree: Tree): seq<DirtyFile>
    decreases tree
  {
    match tree case Unlistable => [] case Tree(es) => DirtyAmong(path, es)
  }

  function DirtyAt(path: Path, e: TreeEntry): seq<DirtyFile>
    decreases e
  {
    match e
    case TreeDir(name, sub) => DirtyIn(path + [name], sub)
    case TreeFile(name, Some(true), bytes) =>
      if Nameable(path + [name]) then [DirtyFile(path + [name], bytes)] else []
    case _ => []
  }

  function DirtyAmong(path: Path, es: seq<TreeEntry>): seq<DirtyFile>
    decreases es
  {
    if es == [] then [] else DirtyAt(path, es[0]) + DirtyAmong(path, es[1..])
  }

  lemma {:induction false} CopiesOfBoth(a: seq<DirtyFile>, b: seq<DirtyFile>, f: DirtyFile)
    ensures Copies(a + b, f) == Copies(a, f) + Copies(b, f)
  {
    if b == [] {
      assert a + b == a;
    } else {
      var n := |b| - 1;
      CopiesOfBoth(a, b[..n], f);
      assert (a + b)[..|a + b| - 1] == a + b[..n];
    }
  }

  lemma {:induction false} DirtyAtIsHeld(path: Path, e: TreeEntry, f: DirtyFile)
    ensures Copies(DirtyAt(path, e), f) == HoldsAt(path, e, f).copies
    decreases e
  {
    if e.TreeDir? && e.sub.Tree? { DirtyIsHeld(path + [e.name], e.sub.entries, f); }
    if e.TreeFile? { CopiesSnoc([], DirtyFile(path + [e.name], e.bytes), f); }
  }

  lemma {:induction false} DirtyIsHeld(path: Path, es: seq<TreeEntry>, f: DirtyFile)
    ensures Copies(DirtyAmong(path, es), f) == HoldsAll(path, es, f).copies
    decreases es
  {
    if es != [] {
      DirtyAtIsHeld(path, es[0], f);
      DirtyIsHeld(path, es[1..], f);
      CopiesOfBoth(DirtyAt(path, es[0]), DirtyAmong(path, es[1..]), f);
    }
  }

  lemma {:induction false} ReportedIsListed(files: seq<DirtyFile>, f: DirtyFile) returns (i: nat)
    requires Copies(files, f) > 0
    ensures i < |files| && files[i] == f
  {
    var n := |files| - 1;
    if files[n] == f { i := n; } else { i := ReportedIsListed(files[..n], f); }
  }

  lemma TheLastIsReported(files: seq<DirtyFile>)
    ensures files != [] ==> Copies(files, files[|files| - 1]) > 0
  {}

  lemma {:induction false} TotalOfBoth(a: seq<DirtyFile>, b: seq<DirtyFile>)
    ensures TotalBytes(a + b) == TotalBytes(a) + TotalBytes(b)
  {
    if a == [] {
      assert a + b == b;
    } else {
      assert (a + b)[1..] == a[1..] + b;
      TotalOfBoth(a[1..], b);
    }
  }

  function Except(files: seq<DirtyFile>, i: nat): seq<DirtyFile>
    requires i < |files|
  {
    files[..i] + files[i + 1..]
  }

  lemma CopiesExcept(files: seq<DirtyFile>, i: nat, f: DirtyFile)
    requires i < |files|
    ensures Copies(files, f) == Copies(Except(files, i), f) + (if files[i] == f then 1 else 0)
  {
    assert files == files[..i] + ([files[i]] + files[i + 1..]);
    CopiesOfBoth(files[..i], [files[i]] + files[i + 1..], f);
    CopiesOfBoth([files[i]], files[i + 1..], f);
    CopiesOfBoth(files[..i], files[i + 1..], f);
    CopiesSnoc([], files[i], f);
  }

  lemma TotalExcept(files: seq<DirtyFile>, i: nat)
    requires i < |files|
    ensures TotalBytes(files)
         == TotalBytes(Except(files, i)) + (if files[i].bytes.Some? then files[i].bytes.value else 0)
  {
    var before, after := files[..i], files[i + 1..];
    assert files == before + files[i..] && files[i..][1..] == after;
    TotalOfBoth(before, files[i..]);
    TotalOfBoth(before, after);
  }

  /** The same files, each as often, in any order, come to the same number of bytes. */
  lemma {:induction false} SameFilesSameTotal(a: seq<DirtyFile>, b: seq<DirtyFile>)
    requires forall f :: Copies(a, f) == Copies(b, f)
    ensures TotalBytes(a) == TotalBytes(b)
    decreases |a|
  {
    if a == [] {
      TheLastIsReported(b);
    } else {
      var n := |a| - 1;
      assert Copies(a, a[n]) > 0;
      var i := ReportedIsListed(b, a[n]);
      forall f ensures Copies(Except(a, n), f) == Copies(Except(b, i), f) {
        CopiesExcept(a, n, f);
        CopiesExcept(b, i, f);
      }
      SameFilesSameTotal(Except(a, n), Except(b, i));
      TotalExcept(a, n);
      TotalExcept(b, i);
    }
  }

  /**
   * On a tree that holds still a walk that is not cut short reports the measured total of the
   * tree's own dirty files, or the ceiling.
   */
  lemma ScannedBytesAreTheTrees(disk: Disk, max: nat, es: seq<TreeEntry>)
    requires Mirrors(disk, [], Tree(es)) && Run(disk, max, START).Scanned?
    requires !Run(disk, max, START).scan.truncated
    ensures KnownBytes(Run(disk, max, START).scan.files) == Min(TotalBytes(DirtyAmong([], es)), U64_MAX)
  {
    var files := Run(disk, max, START).scan.files;
    forall f ensures Copies(files, f) == Copies(DirtyAmong([], es), f) {
      ScanIsExact(disk, max, es, f);
      DirtyIsHeld([], es, f);
    }
    SameFilesSameTotal(files, DirtyAmong([], es));
    KnownBytesIsTheSum(files);
  }

  // --- names --------------------------------------------------------------------------

  /** A component as a directory entry has it: without a separator. */
  predicate Plain(c: Component) { '/' !in c.text }

  lemma NotCutShorter(a: string, x: string, b: string, y: string)
    requires '/' !in b && a + "/" + x == b + "/" + y
    ensures |b| <= |a|
  {
    var s := a + "/" + x;
    assert s[|a|] == '/' && s[..|b|] == b;
    assert forall i :: 0 <= i < |b| ==> s[i] == b[i];
  }

  /** Two texts cut at their first separator. */
  lemma CutAtTheFirst(a: string, x: string, b: string, y: string)
    requires '/' !in a && '/' !in b && a + "/" + x == b + "/" + y
    ensures a == b && x == y
  {
    NotCutShorter(a, x, b, y);
    NotCutShorter(b, y, a, x);
    var s, t := a + "/" + x, b + "/" + y;
    assert a == s[..|a|] && b == t[..|b|];
    assert x == s[|a| + 1..] && y == t[|b| + 1..];
  }

  lemma OnlySingleNamesArePlain(path: Path)
    requires path != [] && Plain(path[0])
    ensures '/' in NameOf(path) <==> |path| > 1
  {
    if |path| > 1 { assert NameOf(path)[|path[0].text|] == '/'; }
  }

  /** What a client is shown tells dirty files apart: two reported paths share a name only if equal. */
  lemma {:induction false} NamesTellFilesApart(p: Path, q: Path)
    requires p != [] && q != [] && Nameable(p) && Nameable(q)
    requires (forall c <- p :: Plain(c)) && forall c <- q :: Plain(c)
    ensures NameOf(p) == NameOf(q) <==> p == q
  {
    assert p[0] in p && q[0] in q;
    OnlySingleNamesArePlain(p);
    OnlySingleNamesArePlain(q);
    assert p == [p[0]] + p[1..] && q == [q[0]] + q[1..];
    if NameOf(p) == NameOf(q) && |p| > 1 {
      CutAtTheFirst(p[0].text, NameOf(p[1..]), q[0].text, NameOf(q[1..]));
      NamesTellFilesApart(p[1..], q[1..]);
    }
  }
}
