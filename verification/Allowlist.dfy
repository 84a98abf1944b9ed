/** The execve allowlists of the kernel module: two trees ordered by hash, their counters, the buffers
    they own, and the command loop behind the device file. */
module Allowlist {
  import opened Strings
  import opened Wrappers

  const ADD_EXE := 'Y'
  const DEL_EXE := 'F'
  const DEL_ALL_EXE := 'w'
  const CHECK_EXE := 'y'
  const ADD_ARGV := 'm'
  const DEL_ARGV := 'J'
  const DEL_ALL_ARGV := 'u'
  const CHECK_ARGV := 'z'

  const NODE_MIN := 5
  const NODE_MAX := 4090
  const LIMIT := 128

  /** An allowlist_node: `data` and `node` name the two allocations it consists of. */
  datatype Item = Item(hash: nat, data: int, node: int)

  datatype Tree = Leaf | Node(left: Tree, item: Item, right: Tree)

  function Items(t: Tree): set<Item> {
    match t
    case Leaf => {}
    case Node(l, x, r) => Items(l) + {x} + Items(r)
  }

  /** Smaller hashes on the left, larger ones on the right. */
  ghost predicate Ordered(t: Tree) {
    match t
    case Leaf => true
    case Node(l, x, r) =>
      && Ordered(l) && Ordered(r)
      && (forall y <- Items(l) :: y.hash < x.hash)
      && (forall y <- Items(r) :: x.hash < y.hash)
  }

  ghost function Hashes(items: set<Item>): set<nat> {
    set x | x in items :: x.hash
  }

  /** The allocations the nodes consist of. */
  ghost function Owned(items: set<Item>): set<int> {
    (set x | x in items :: x.data) + (set x | x in items :: x.node)
  }

  /** No allocation is part of two nodes, or both halves of one. */
  ghost predicate Unshared(items: set<Item>) {
    && (forall x <- items, y <- items :: x.data != y.node)
    && (forall x <- items, y <- items :: x.data == y.data || x.node == y.node ==> x == y)
  }

  // ----- Searching

  /** exist_rb and search_rb: the loop down the tree finds the node with a hash if there is one. */
  method Search(root: Tree, hash: nat) returns (r: Option<Item>)
    requires Ordered(root)
    ensures r.Some? ==> r.value in Items(root) && r.value.hash == hash
    ensures r.None? <==> hash !in Hashes(Items(root))
  {
    var node := root;
    while node.Node?
      invariant Ordered(node) && Items(node) <= Items(root)
      invariant forall x <- Items(root) :: x.hash == hash ==> x in Items(node)
      decreases node
    {
      if hash < node.item.hash {
        node := node.left;
      } else if hash > node.item.hash {
        node := node.right;
      } else {
        return Some(node.item);
      }
    }
    r := None;
  }

  // ----- Inserting

  /** Hang a new node below the leaf the search for its hash ends at. */
  function Link(t: Tree, x: Item): Tree {
    match t
    case Leaf => Node(Leaf, x, Leaf)
    case Node(l, y, r) => if x.hash < y.hash then Node(Link(l, x), y, r) else Node(l, y, Link(r, x))
  }

  /** Linking a new hash keeps the order and adds exactly that node. */
  lemma {:induction false} LinkKeepsOrder(t: Tree, x: Item)
    requires Ordered(t) && x.hash !in Hashes(Items(t))
    ensures Ordered(Link(t, x)) && Items(Link(t, x)) == Items(t) + {x}
  {
    match t {
      case Leaf =>
      case Node(l, y, r) =>
        assert y in Items(t) && Items(l) <= Items(t) && Items(r) <= Items(t);
        if x.hash < y.hash {
          LinkKeepsOrder(l, x);
          assert Link(t, x) == Node(Link(l, x), y, r);
        } else {
          LinkKeepsOrder(r, x);
          assert Link(t, x) == Node(l, y, Link(r, x));
        }
    }
  }

  /** In an ordered tree a hash stands for one node. */
  lemma {:induction false} OneNodeEach(t: Tree, x: Item, y: Item)
    requires Ordered(t) && x in Items(t) && y in Items(t) && x.hash == y.hash
    ensures x == y
  {
    if x in Items(t.left) && y in Items(t.left) {
      OneNodeEach(t.left, x, y);
    } else if x in Items(t.right) && y in Items(t.right) {
      OneNodeEach(t.right, x, y);
    }
  }

  // ----- The kernel's red-black tree

  /** rb_insert_color and rb_erase: they may give the tree any shape, but keep its order and contents. */
  datatype RbTree = RbTree(insertColor: Tree -> Tree, erase: (Tree, Item) -> Tree) {
    ghost predicate Sound() {
      && (forall t {:trigger insertColor(t)} :: Ordered(t) ==> Ordered(insertColor(t)) && Items(insertColor(t)) == Items(t))
      && (forall t, x {:trigger erase(t, x)} :: Ordered(t) && x in Items(t) ==>
            Ordered(erase(t, x)) && Items(erase(t, x)) == Items(t) - {x})
    }
  }

  // ----- Commands

  /** The argument of a command: what follows the flag, as a trimmed C string. */
  function Argument(buff: string): string
    requires buff != []
  {
    Trim(CString(buff[1..]))
  }

  /** A command says: do to `text` what the flag stands for. Spaces around the text do not matter, nor does what
      follows a zero. */
  ghost predicate Says(buff: string, flag: char, text: string) {
    exists left, right, rest :: SaysWith(buff, flag, text, left, right, rest)
  }

  ghost predicate SaysWith(buff: string, flag: char, text: string, left: string, right: string, rest: string) {
    && Blank(left) && Blank(right) && Bare(text) && '\0' !in text
    && (rest != [] ==> rest[0] == '\0')
    && buff == [flag] + (left + text + right) + rest
  }

  lemma NoZeroInSpaces(s: string)
    requires Blank(s)
    ensures '\0' !in s
  {
  }

  lemma SaidIsArgument(buff: string, flag: char, text: string, left: string, right: string, rest: string)
    requires SaysWith(buff, flag, text, left, right, rest)
    ensures buff != [] && buff[0] == flag && Argument(buff) == text
  {
    hide CString, Trim, Blank, Bare;
    var body := left + text + right;
    NoZeroInSpaces(left);
    NoZeroInSpaces(right);
    assert buff[1..] == body + rest && (body + rest)[..|body|] == body;
    CStringEnds(buff[1..], |body|);
    TrimExact(left, text, right);
  }

  lemma ArgumentIsSaid(buff: string)
    requires buff != []
    ensures Says(buff, buff[0], Argument(buff))
  {
    hide CString, Trim, Blank, Bare;
    var s := CString(buff[1..]);
    CStringForm(buff[1..]);
    var left, right := TrimForm(s);
    var rest := buff[1..][|s|..];
    assert forall c <- Trim(s) :: c in s;
    assert buff == [buff[0]] + s + rest;
    assert SaysWith(buff, buff[0], Argument(buff), left, right, rest);
  }

  /** The argument of a command is the text it says, and the only one. */
  lemma ArgumentExactly(buff: string, flag: char, text: string)
    ensures Says(buff, flag, text) <==> buff != [] && buff[0] == flag && Argument(buff) == text
  {
    hide Argument, SaysWith;
    if Says(buff, flag, text) {
      var left, right, rest :| SaysWith(buff, flag, text, left, right, rest);
      SaidIsArgument(buff, flag, text, left, right, rest);
    }
    if buff != [] { ArgumentIsSaid(buff); }
  }

  predicate InvalidLength(len: nat) {
    len < NODE_MIN || len > NODE_MAX
  }

  /** What execve_exe_check and execve_argv_check never look up. */
  predicate NeverListed(s: string) {
    s == [] || s == "-1" || s == "-2"
  }

  lemma NeverListedExactly(text: string)
    ensures NeverListed(text) <==> text in {"", "-1", "-2"}
  {
  }

  // ----- What a command does to the set of listed hashes

  /** The flags of one of the two lists. */
  datatype Flags = Flags(add: char, del: char, delAll: char)

  const EXE := Flags(ADD_EXE, DEL_EXE, DEL_ALL_EXE)
  const ARGV := Flags(ADD_ARGV, DEL_ARGV, DEL_ALL_ARGV)

  /** A command with the outcomes of reading the flag, allocating the buffer, copying from the user and
      allocating the node. */
  datatype Command = Command(buff: string, flagRead: bool, bufferFits: bool, copied: bool, nodeFits: bool)

  /** The command reaches the switch. */
  predicate Reaches(cmd: Command, full: bool, flags: Flags) {
    && cmd.buff != [] && cmd.flagRead && !InvalidLength(|cmd.buff|)
    && !(cmd.buff[0] == flags.add && full)
    && cmd.bufferFits && cmd.copied
  }

  function Apply(listed: set<nat>, cmd: Command, flags: Flags, hash: string -> nat): set<nat> {
    if !Reaches(cmd, |listed| > LIMIT, flags) then listed
    else if cmd.buff[0] == flags.add then if cmd.nodeFits then listed + {hash(Argument(cmd.buff))} else listed
    else if cmd.buff[0] == flags.del then listed - {hash(Argument(cmd.buff))}
    else if cmd.buff[0] == flags.delAll then {}
    else listed
  }

  function Run(cmds: seq<Command>, flags: Flags, hash: string -> nat): set<nat> {
    if cmds == [] then {} else Apply(Run(cmds[..|cmds| - 1], flags, hash), cmds[|cmds| - 1], flags, hash)
  }

  /** The command puts `h` on the list. */
  predicate Adds(listed: set<nat>, cmd: Command, flags: Flags, hash: string -> nat, h: nat) {
    Reaches(cmd, |listed| > LIMIT, flags) && cmd.buff[0] == flags.add && cmd.nodeFits && hash(Argument(cmd.buff)) == h
  }

  /** The command takes `h` off the list. */
  predicate Removes(cmd: Command, flags: Flags, hash: string -> nat, h: nat) {
    && Reaches(cmd, false, flags) && cmd.buff[0] != flags.add
    && if cmd.buff[0] == flags.del then hash(Argument(cmd.buff)) == h else cmd.buff[0] == flags.delAll
  }

  /** Added at `i` and not removed since. */
  ghost predicate AddedAndKept(cmds: seq<Command>, flags: Flags, hash: string -> nat, h: nat, i: int) {
    && 0 <= i < |cmds| && Adds(Run(cmds[..i], flags, hash), cmds[i], flags, hash, h)
    && forall j :: i < j < |cmds| ==> !Removes(cmds[j], flags, hash, h)
  }

  /** After a command a hash is listed if the command added it, or it was listed and stays. */
  lemma ApplyMember(listed: set<nat>, cmd: Command, flags: Flags, hash: string -> nat, h: nat)
    ensures h in Apply(listed, cmd, flags, hash) <==>
            Adds(listed, cmd, flags, hash, h) || (h in listed && !Removes(cmd, flags, hash, h))
  {
    hide Argument, InvalidLength;
  }

  lemma KeptGrows(cmds: seq<Command>, flags: Flags, hash: string -> nat, h: nat, i: int)
    requires cmds != [] && i != |cmds| - 1
    ensures AddedAndKept(cmds, flags, hash, h, i) <==>
            AddedAndKept(cmds[..|cmds| - 1], flags, hash, h, i) && !Removes(cmds[|cmds| - 1], flags, hash, h)
  {
    hide Adds, Removes, Run;
    var n := |cmds| - 1;
    if 0 <= i < n { assert cmds[..n][..i] == cmds[..i]; }
  }

  /** Over every sequence of commands, a hash is listed exactly when it was added and not since removed. */
  lemma {:induction false} ListedExactly(cmds: seq<Command>, flags: Flags, hash: string -> nat, h: nat)
    ensures h in Run(cmds, flags, hash) <==> exists i :: AddedAndKept(cmds, flags, hash, h, i)
  {
    hide Apply, Adds, Removes;
    if cmds != [] {
      var n := |cmds| - 1;
      ListedExactly(cmds[..n], flags, hash, h);
      ApplyMember(Run(cmds[..n], flags, hash), cmds[n], flags, hash, h);
      forall i | i != n
        ensures AddedAndKept(cmds, flags, hash, h, i) <==>
                AddedAndKept(cmds[..n], flags, hash, h, i) && !Removes(cmds[n], flags, hash, h)
      {
        KeptGrows(cmds, flags, hash, h, i);
      }
      assert !AddedAndKept(cmds[..n], flags, hash, h, n);
      assert AddedAndKept(cmds, flags, hash, h, n) <==> Adds(Run(cmds[..n], flags, hash), cmds[n], flags, hash, h);
    }
  }

  // ----- The same, told by what the commands say

  /** The command gets as far as the switch, unless it is refused because the list is full. */
  ghost predicate Received(cmd: Command) {
    5 <= |cmd.buff| <= 4090 && cmd.flagRead && cmd.bufferFits && cmd.copied
  }

  ghost predicate SaysHash(cmd: Command, flag: char, hash: string -> nat, h: nat) {
    exists text :: Says(cmd.buff, flag, text) && hash(text) == h
  }

  /** Some command said to add a text with that hash, when the list was not full, and none since said to delete one
      or all. */
  ghost predicate ToldAndKept(cmds: seq<Command>, flags: Flags, hash: string -> nat, h: nat, i: int) {
    && 0 <= i < |cmds| && Received(cmds[i]) && cmds[i].nodeFits
    && |Run(cmds[..i], flags, hash)| <= 128 && SaysHash(cmds[i], flags.add, hash, h)
    && forall j :: i < j < |cmds| && Received(cmds[j]) ==>
         !SaysHash(cmds[j], flags.del, hash, h) && cmds[j].buff[0] != flags.delAll
  }

  lemma HashSaid(cmd: Command, flag: char, hash: string -> nat, h: nat)
    ensures SaysHash(cmd, flag, hash, h) <==> cmd.buff != [] && cmd.buff[0] == flag && hash(Argument(cmd.buff)) == h
  {
    hide Says, Argument;
    if text :| Says(cmd.buff, flag, text) && hash(text) == h {
      ArgumentExactly(cmd.buff, flag, text);
    }
    if cmd.buff != [] { ArgumentExactly(cmd.buff, cmd.buff[0], Argument(cmd.buff)); }
  }

  /** The flags of a list are three different characters. */
  predicate Apart(flags: Flags) {
    flags.add != flags.del && flags.add != flags.delAll && flags.del != flags.delAll
  }

  lemma ToldExactly(cmds: seq<Command>, flags: Flags, hash: string -> nat, h: nat, i: int)
    requires Apart(flags)
    ensures ToldAndKept(cmds, flags, hash, h, i) <==> AddedAndKept(cmds, flags, hash, h, i)
  {
    hide Run, Argument, SaysHash;
    if 0 <= i < |cmds| {
      HashSaid(cmds[i], flags.add, hash, h);
      forall j | i < j < |cmds| && Received(cmds[j])
        ensures SaysHash(cmds[j], flags.del, hash, h) || cmds[j].buff[0] == flags.delAll <==> Removes(cmds[j], flags, hash, h)
      {
        HashSaid(cmds[j], flags.del, hash, h);
      }
    }
  }

  /** The list never grows beyond the limit by more than one. */
  lemma {:induction false} NeverOverfull(cmds: seq<Command>, flags: Flags, hash: string -> nat)
    ensures |Run(cmds, flags, hash)| <= 129
  {
    if cmds != [] {
      var before := Run(cmds[..|cmds| - 1], flags, hash);
      NeverOverfull(cmds[..|cmds| - 1], flags, hash);
      Smaller(before, hash(if cmds[|cmds| - 1].buff == [] then [] else Argument(cmds[|cmds| - 1].buff)));
    }
  }

  lemma Smaller(s: set<nat>, h: nat)
    ensures |s - {h}| <= |s|
  {
    if h in s { assert s == (s - {h}) + {h}; } else { assert s - {h} == s; }
  }

  // ----- The module's state

  datatype List = List(root: Tree, count: int)

  ghost predicate ListOK(l: List) {
    Ordered(l.root) && Unshared(Items(l.root)) && l.count == |Items(l.root)|
  }

  lemma {:induction false} DistinctHashes(items: set<Item>)
    requires forall x <- items, y <- items :: x.hash == y.hash ==> x == y
    ensures |Hashes(items)| == |items|
  {
    if items != {} {
      var x :| x in items;
      DistinctHashes(items - {x});
      assert Hashes(items) == Hashes(items - {x}) + {x.hash};
      assert items == (items - {x}) + {x};
    }
  }

  lemma CountIsHashes(t: Tree)
    requires Ordered(t)
    ensures |Hashes(Items(t))| == |Items(t)|
  {
    forall x <- Items(t), y <- Items(t) | x.hash == y.hash ensures x == y {
      OneNodeEach(t, x, y);
    }
    DistinctHashes(Items(t));
  }

  /** Both lists, and the allocations made and not yet freed. */
  class Filter {
    const rb: RbTree
    const hash: string -> nat
    var exe: List
    var argv: List
    ghost var live: set<int>
    var nextId: int

    /** The trees are ordered, the counters right and within the limit, and every live allocation is
        part of exactly one node. */
    ghost predicate Valid()
      reads this
    {
      && rb.Sound() && ListOK(exe) && ListOK(argv)
      && exe.count <= LIMIT + 1 && argv.count <= LIMIT + 1
      && Owned(Items(exe.root)) !! Owned(Items(argv.root))
      && live == Owned(Items(exe.root)) + Owned(Items(argv.root))
      && (forall a <- live :: a < nextId)
    }

    ghost function Exe(): set<nat>
      reads this
    {
      Hashes(Items(exe.root))
    }

    ghost function Argv(): set<nat>
      reads this
    {
      Hashes(Items(argv.root))
    }

    constructor (rb: RbTree, hash: string -> nat)
      requires rb.Sound()
      ensures Valid() && this.rb == rb && this.hash == hash && Exe() == {} && Argv() == {} && live == {}
    {
      this.rb, this.hash := rb, hash;
      exe, argv, live, nextId := List(Leaf, 0), List(Leaf, 0), {}, 0;
    }

    /** smith_kzalloc */
    method Alloc(fits: bool) returns (id: Option<int>)
      requires forall a <- live :: a < nextId
      modifies this`live, this`nextId
      ensures forall a <- live :: a < nextId
      ensures !fits ==> id == None && live == old(live) && nextId == old(nextId)
      ensures fits ==> id == Some(old(nextId)) && live == old(live) + {id.value} && nextId == old(nextId) + 1
    {
      if !fits {
        return None;
      }
      id := Some(nextId);
      live := live + {nextId};
      nextId := nextId + 1;
    }

    /** smith_kfree: only of what is allocated. */
    method Free(id: int)
      requires id in live
      modifies this`live
      ensures live == old(live) - {id}
    {
      live := live - {id};
    }

    /** add_execve_exe_allowlist and add_execve_argv_allowlist: on success the list owns `data` and a new
        node; otherwise nothing is kept. */
    method AddTo(l: List, text: string, data: int, fits: bool) returns (rc: int, l': List)
      requires rb.Sound() && ListOK(l) && Owned(Items(l.root)) <= live - {data} && data in live
      requires forall a <- live :: a < nextId
      modifies this`live, this`nextId
      ensures forall a <- live :: a < nextId
      ensures ListOK(l') && old(nextId) <= nextId
      ensures rc == 0 <==> fits && hash(text) !in Hashes(Items(l.root))
      ensures rc != 0 ==> l' == l && live == old(live)
      ensures rc == 0 ==>
                && l'.count == l.count + 1
                && Hashes(Items(l'.root)) == Hashes(Items(l.root)) + {hash(text)}
                && Owned(Items(l'.root)) == Owned(Items(l.root)) + {data, old(nextId)}
                && live == old(live) + {old(nextId)}
    {
      hide Owned, Unshared, Items, Ordered, Hashes, Link;
      l' := l;
      var node := Alloc(fits);
      if node.None? {
        return -12, l;
      }
      var x := Item(hash(text), data, node.value);
      var found := Search(l.root, x.hash);
      if found.Some? {
        Free(node.value);
        return 1, l;
      }
      LinkKeepsOrder(l.root, x);
      UnsharedGrows(Items(l.root), x);
      HashesGrow(Items(l.root), x);
      l' := List(rb.insertColor(Link(l.root, x)), l.count + 1);
      rc := 0;
    }

    /** del_execve_exe_allowlist and del_execve_argv_allowlist: the node with that hash goes, and both its
        allocations are freed. */
    method DeleteFrom(l: List, text: string) returns (l': List)
      requires rb.Sound() && ListOK(l) && Owned(Items(l.root)) <= live
      modifies this`live
      ensures ListOK(l') && l'.count <= l.count && Owned(Items(l'.root)) <= Owned(Items(l.root))
      ensures Hashes(Items(l'.root)) == Hashes(Items(l.root)) - {hash(text)}
      ensures live == old(live) - (Owned(Items(l.root)) - Owned(Items(l'.root)))
    {
      hide Owned, Unshared, Items, Ordered, Hashes;
      var found := Search(l.root, hash(text));
      l' := l;
      if found.Some? {
        var x := found.value;
        l' := List(rb.erase(l.root, x), l.count - 1);
        Erased(l.root, x);
        Free(x.data);
        Free(x.node);
      }
    }

    /** rbtree_clear: both allocations of every node below are freed, each once. */
    method Clear(t: Tree)
      requires Ordered(t) && Unshared(Items(t)) && Owned(Items(t)) <= live
      modifies this`live
      ensures live == old(live) - Owned(Items(t))
      decreases t
    {
      if t.Leaf? {
        return;
      }
      ClearedApart(t);
      Clear(t.left);
      Clear(t.right);
      Free(t.item.data);
      Free(t.item.node);
    }

    /** execve_exe_check and execve_argv_check */
    method Check(l: List, text: string) returns (found: bool)
      requires ListOK(l)
      ensures found <==> !NeverListed(text) && hash(text) in Hashes(Items(l.root))
    {
      if NeverListed(text) {
        return false;
      }
      var r := Search(l.root, hash(text));
      found := r.Some?;
    }

    /** The add branches of the switch: the buffer becomes the node's, or is freed. */
    method Add(l: List, other: List, text: string, data: int, fits: bool) returns (l': List)
      requires rb.Sound() && ListOK(l) && ListOK(other) && Owned(Items(l.root)) !! Owned(Items(other.root))
      requires live == Owned(Items(l.root)) + Owned(Items(other.root)) + {data}
      requires data !in Owned(Items(l.root)) && data !in Owned(Items(other.root))
      requires forall a <- live :: a < nextId
      modifies this`live, this`nextId
      ensures forall a <- live :: a < nextId
      ensures ListOK(l') && l'.count <= l.count + 1 && Owned(Items(l'.root)) !! Owned(Items(other.root))
      ensures live == Owned(Items(l'.root)) + Owned(Items(other.root))
      ensures Hashes(Items(l'.root)) == Hashes(Items(l.root)) + if fits then {hash(text)} else {}
    {
      hide Unshared, Items, Ordered, Owned, Hashes;
      var rc;
      rc, l' := AddTo(l, text, data, fits);
      if rc != 0 {
        Free(data);
      }
    }

    /** The switch, with the buffer `data` in hand. */
    method Execute(flag: char, text: string, data: int, nodeFits: bool) returns (found: Option<bool>)
      requires rb.Sound() && ListOK(exe) && ListOK(argv) && Owned(Items(exe.root)) !! Owned(Items(argv.root))
      requires exe.count <= LIMIT + 1 && argv.count <= LIMIT + 1
      requires flag == ADD_EXE ==> exe.count <= LIMIT
      requires flag == ADD_ARGV ==> argv.count <= LIMIT
      requires live == Owned(Items(exe.root)) + Owned(Items(argv.root)) + {data}
      requires data !in Owned(Items(exe.root)) && data !in Owned(Items(argv.root))
      requires forall a <- live :: a < nextId
      modifies this`exe, this`argv, this`live, this`nextId
      ensures Valid()
      ensures Exe() == if flag == ADD_EXE then old(Exe()) + (if nodeFits then {hash(text)} else {})
                       else if flag == DEL_EXE then old(Exe()) - {hash(text)}
                       else if flag == DEL_ALL_EXE then {} else old(Exe())
      ensures Argv() == if flag == ADD_ARGV then old(Argv()) + (if nodeFits then {hash(text)} else {})
                        else if flag == DEL_ARGV then old(Argv()) - {hash(text)}
                        else if flag == DEL_ALL_ARGV then {} else old(Argv())
      ensures found.Some? <==> flag == CHECK_EXE || flag == CHECK_ARGV
      ensures found.Some? ==> found.value == (!NeverListed(text) && hash(text) in if flag == CHECK_EXE then Exe() else Argv())
    {
      hide Unshared, Items, Ordered, Owned, Hashes, NeverListed;
      found := None;
      if flag == ADD_EXE {
        exe := Add(exe, argv, text, data, nodeFits);
      } else if flag == ADD_ARGV {
        argv := Add(argv, exe, text, data, nodeFits);
      } else {
        found := Switch(flag, text);
        Free(data);
      }
    }

    /** filter_process_allowlist: on each list the command has the effect Apply describes, and every
        buffer it allocates ends up in a node or freed. `found` is the result of a check command. */
    method Process(cmd: Command) returns (found: Option<bool>)
      requires Valid()
      modifies this`exe, this`argv, this`live, this`nextId
      ensures Valid()
      ensures Exe() == Apply(old(Exe()), cmd, EXE, hash)
      ensures Argv() == Apply(old(Argv()), cmd, ARGV, hash)
      ensures found.Some? <==> Received(cmd) && (cmd.buff[0] == 'y' || cmd.buff[0] == 'z')
      ensures found.Some? ==> forall text :: Says(cmd.buff, cmd.buff[0], text) ==>
                found.value == (text !in {"", "-1", "-2"} && hash(text) in if cmd.buff[0] == 'y' then Exe() else Argv())
    {
      hide Unshared, Items, Ordered, Owned, Hashes, Argument, NeverListed, Says;
      found := None;
      CountIsHashes(exe.root);
      CountIsHashes(argv.root);
      if cmd.buff == [] || !cmd.flagRead || InvalidLength(|cmd.buff|) {
        return;
      }
      var flag := cmd.buff[0];
      if (flag == ADD_EXE && exe.count > LIMIT) || (flag == ADD_ARGV && argv.count > LIMIT) {
        return;
      }
      var buffer := Alloc(cmd.bufferFits);
      if buffer.None? {
        return;
      }
      if !cmd.copied {
        Free(buffer.value);
        return;
      }
      found := Execute(flag, Argument(cmd.buff), buffer.value, cmd.nodeFits);
      forall text | Says(cmd.buff, cmd.buff[0], text) ensures text == Argument(cmd.buff) {
        ArgumentExactly(cmd.buff, cmd.buff[0], text);
      }
      NeverListedExactly(Argument(cmd.buff));
    }

    /** Any sequence of commands written to the device, from the start: a hash is on a list exactly when some
        command has put it there and none since has taken it off. */
    method ProcessAll(cmds: seq<Command>)
      requires Valid() && Exe() == {} && Argv() == {}
      modifies this`exe, this`argv, this`live, this`nextId
      ensures Valid() && Exe() == Run(cmds, EXE, hash) && Argv() == Run(cmds, ARGV, hash)
      ensures forall h: nat :: h in Exe() <==> exists i :: AddedAndKept(cmds, EXE, hash, h, i)
      ensures forall h: nat :: h in Argv() <==> exists i :: AddedAndKept(cmds, ARGV, hash, h, i)
    {
      hide ListOK, Items, Owned, Hashes, Apply, AddedAndKept, RbTree.Sound;
      assert cmds[..0] == [];
      for i := 0 to |cmds|
        invariant Valid() && Exe() == Run(cmds[..i], EXE, hash) && Argv() == Run(cmds[..i], ARGV, hash)
      {
        assert cmds[..i + 1][..i] == cmds[..i];
        var found := Process(cmds[i]);
      }
      assert cmds[..|cmds|] == cmds;
      forall h: nat ensures h in Run(cmds, EXE, hash) <==> exists i :: AddedAndKept(cmds, EXE, hash, h, i) {
        ListedExactly(cmds, EXE, hash, h);
      }
      forall h: nat ensures h in Run(cmds, ARGV, hash) <==> exists i :: AddedAndKept(cmds, ARGV, hash, h, i) {
        ListedExactly(cmds, ARGV, hash, h);
      }
    }

    /** A check of an executable after any sequence of commands succeeds exactly for a text with the hash of one that
        a command said to add and none since said to delete. */
    method CheckAfter(cmds: seq<Command>, text: string) returns (found: bool)
      requires Valid() && Exe() == {} && Argv() == {}
      modifies this`exe, this`argv, this`live, this`nextId
      ensures Valid()
      ensures found <==> text !in {"", "-1", "-2"} && exists i :: ToldAndKept(cmds, Flags('Y', 'F', 'w'), hash, hash(text), i)
    {
      hide Items, Owned, Hashes, AddedAndKept, ToldAndKept, RbTree.Sound, Unshared, Ordered;
      ProcessAll(cmds);
      found := Check(exe, text);
      assert found <==> !NeverListed(text) && hash(text) in Exe();
      forall i ensures ToldAndKept(cmds, EXE, hash, hash(text), i) <==> AddedAndKept(cmds, EXE, hash, hash(text), i) {
        ToldExactly(cmds, EXE, hash, hash(text), i);
      }
    }

    /** The same of a check of arguments. */
    method CheckArgvAfter(cmds: seq<Command>, text: string) returns (found: bool)
      requires Valid() && Exe() == {} && Argv() == {}
      modifies this`exe, this`argv, this`live, this`nextId
      ensures Valid()
      ensures found <==> text !in {"", "-1", "-2"} && exists i :: ToldAndKept(cmds, Flags('m', 'J', 'u'), hash, hash(text), i)
    {
      hide Items, Owned, Hashes, AddedAndKept, ToldAndKept, RbTree.Sound, Unshared, Ordered;
      ProcessAll(cmds);
      found := Check(argv, text);
      assert found <==> !NeverListed(text) && hash(text) in Argv();
      forall i ensures ToldAndKept(cmds, ARGV, hash, hash(text), i) <==> AddedAndKept(cmds, ARGV, hash, hash(text), i) {
        ToldExactly(cmds, ARGV, hash, hash(text), i);
      }
    }

    /** The delete branches of the switch, for one of the lists. */
    method Remove(l: List, other: List, all: bool, text: string) returns (l': List)
      requires rb.Sound() && ListOK(l) && Owned(Items(l.root)) !! Owned(Items(other.root))
      requires Owned(Items(l.root)) + Owned(Items(other.root)) <= live
      modifies this`live
      ensures ListOK(l') && l'.count <= l.count && Owned(Items(l'.root)) !! Owned(Items(other.root))
      ensures Owned(Items(l'.root)) + Owned(Items(other.root)) <= live <= old(live)
      ensures live - (Owned(Items(l'.root)) + Owned(Items(other.root))) ==
              old(live - (Owned(Items(l.root)) + Owned(Items(other.root))))
      ensures Hashes(Items(l'.root)) == if all then {} else Hashes(Items(l.root)) - {hash(text)}
    {
      hide Unshared, Ordered, Owned, Items, Hashes;
      if all {
        Clear(l.root);
        l' := List(Leaf, 0);
        EmptyListOK();
      } else {
        l' := DeleteFrom(l, text);
      }
    }

    /** The branches of the switch that add nothing. */
    method Switch(flag: char, text: string) returns (found: Option<bool>)
      requires rb.Sound() && ListOK(exe) && ListOK(argv) && Owned(Items(exe.root)) !! Owned(Items(argv.root))
      requires Owned(Items(exe.root)) + Owned(Items(argv.root)) <= live && flag != ADD_EXE && flag != ADD_ARGV
      modifies this`exe, this`argv, this`live
      ensures ListOK(exe) && ListOK(argv) && exe.count <= old(exe.count) && argv.count <= old(argv.count)
      ensures Owned(Items(exe.root)) !! Owned(Items(argv.root))
      ensures Owned(Items(exe.root)) + Owned(Items(argv.root)) <= live <= old(live)
      ensures live - (Owned(Items(exe.root)) + Owned(Items(argv.root))) ==
              old(live - (Owned(Items(exe.root)) + Owned(Items(argv.root))))
      ensures Exe() == if flag == DEL_EXE then old(Exe()) - {hash(text)} else if flag == DEL_ALL_EXE then {} else old(Exe())
      ensures Argv() == if flag == DEL_ARGV then old(Argv()) - {hash(text)} else if flag == DEL_ALL_ARGV then {} else old(Argv())
      ensures found.Some? <==> flag == CHECK_EXE || flag == CHECK_ARGV
      ensures found.Some? ==> found.value == (!NeverListed(text) && hash(text) in if flag == CHECK_EXE then Exe() else Argv())
    {
      hide Unshared, Ordered, NeverListed, Owned, Items, Hashes, ListOK, RbTree.Sound;
      found := None;
      if flag == DEL_EXE || flag == DEL_ALL_EXE {
        exe := Remove(exe, argv, flag == DEL_ALL_EXE, text);
      } else if flag == DEL_ARGV || flag == DEL_ALL_ARGV {
        UnionCommutes(Owned(Items(exe.root)), Owned(Items(argv.root)));
        argv := Remove(argv, exe, flag == DEL_ALL_ARGV, text);
        UnionCommutes(Owned(Items(exe.root)), Owned(Items(argv.root)));
      } else if flag == CHECK_EXE {
        var r := Check(exe, text);
        found := Some(r);
      } else if flag == CHECK_ARGV {
        var r := Check(argv, text);
        found := Some(r);
      }
    }
  }

  lemma EmptyListOK()
    ensures ListOK(List(Leaf, 0)) && Owned(Items(Leaf)) == {} && Hashes(Items(Leaf)) == {}
  {
  }

  // ----- Allocations of sets of nodes

  lemma UnionCommutes(a: set<int>, b: set<int>)
    ensures a + b == b + a
  {
  }

  lemma OwnedUnion(a: set<Item>, b: set<Item>)
    ensures Owned(a + b) == Owned(a) + Owned(b)
  {
  }

  lemma OwnedOne(x: Item)
    ensures Owned({x}) == {x.data, x.node}
  {
  }

  /** Disjoint sets of unshared nodes have disjoint allocations. */
  lemma OwnedApart(a: set<Item>, b: set<Item>)
    requires Unshared(a + b) && a !! b
    ensures Unshared(a) && Unshared(b) && Owned(a) !! Owned(b)
  {
  }

  lemma OneUnshared(x: Item)
    requires Unshared({x})
    ensures x.data != x.node
  {
    assert x in {x};
  }

  lemma UnsharedGrows(items: set<Item>, x: Item)
    requires Unshared(items) && x.data != x.node && x.data !in Owned(items) && x.node !in Owned(items)
    ensures Unshared(items + {x}) && x !in items && Owned(items + {x}) == Owned(items) + {x.data, x.node}
  {
  }

  lemma HashesGrow(items: set<Item>, x: Item)
    ensures Hashes(items + {x}) == Hashes(items) + {x.hash}
  {
  }

  lemma HashesShrink(t: Tree, x: Item)
    requires Ordered(t) && x in Items(t)
    ensures Hashes(Items(t) - {x}) == Hashes(Items(t)) - {x.hash}
  {
    hide Ordered, Items;
    forall y | y in Items(t) && y != x ensures y.hash != x.hash {
      if y.hash == x.hash { OneNodeEach(t, x, y); }
    }
  }

  lemma Erased(t: Tree, x: Item)
    requires Ordered(t) && Unshared(Items(t)) && x in Items(t)
    ensures var rest := Items(t) - {x};
            && Unshared(rest) && |rest| == |Items(t)| - 1
            && Hashes(rest) == Hashes(Items(t)) - {x.hash}
            && Owned(rest) == Owned(Items(t)) - {x.data, x.node}
            && x.data != x.node && {x.data, x.node} <= Owned(Items(t))
  {
    hide Ordered, Items, Owned, Unshared, Hashes;
    var rest := Items(t) - {x};
    assert Items(t) == rest + {x};
    HashesShrink(t, x);
    OwnedUnion(rest, {x});
    OwnedOne(x);
    OwnedApart(rest, {x});
    OneUnshared(x);
  }

  /** The allocations of a node, of its left side and of its right side are apart. */
  lemma ClearedApart(t: Tree)
    requires t.Node? && Ordered(t) && Unshared(Items(t))
    ensures Unshared(Items(t.left)) && Unshared(Items(t.right))
    ensures Owned(Items(t)) == Owned(Items(t.left)) + {t.item.data, t.item.node} + Owned(Items(t.right))
    ensures Owned(Items(t.left)) !! Owned(Items(t.right))
    ensures {t.item.data, t.item.node} !! Owned(Items(t.left)) + Owned(Items(t.right)) && t.item.data != t.item.node
  {
    var a, x, b := Items(t.left), t.item, Items(t.right);
    assert a !! b && x !in a && x !in b;
    assert Items(t) == (a + {x}) + b;
    hide Owned, Unshared;
    OwnedApart(a + {x}, b);
    OwnedApart(a, {x});
    OwnedUnion(a + {x}, b);
    OwnedUnion(a, {x});
    OwnedOne(x);
    OneUnshared(x);
  }
}
