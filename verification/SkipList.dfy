/**
 The memtable's skip list. Every link store of an insertion leaves a list that any search reads
 correctly, so a reader may come in between any two of them.
 */
module SkipList {
  /** kMaxHeight */
  const MAX_HEIGHT: nat := 12

  /** A node; only the order of keys matters, so keys are reals. */
  class Node {
    const key: real
    var next: seq<Node?>

    constructor (key: real, height: nat)
      ensures this.key == key && |next| == height && forall l | 0 <= l < height :: next[l] == null
    {
      this.key := key;
      next := seq(height, _ => null);
    }
  }

  ghost function Follower(level: seq<Node>, i: nat): Node? {
    if i + 1 < |level| then level[i + 1] else null
  }

  ghost function InsertedAfter(level: seq<Node>, p: nat, x: Node): seq<Node>
    requires p < |level|
  {
    level[..p + 1] + [x] + level[p + 1..]
  }

  /** The search stops behind node p: it is before the key (or the head) and its follower is not. */
  ghost predicate IsCut(level: seq<Node>, key: real, p: nat) {
    p < |level| && (p > 0 ==> level[p].key < key) && (p + 1 < |level| ==> key <= level[p + 1].key)
  }

  /** The links out of every node, as a reader sees them at one moment. */
  type Links = map<Node, seq<Node?>>

  /** Node i of level l is linked to the next, in order, and is on the level below. */
  ghost predicate NodeOk(levels: seq<seq<Node>>, head: Node, links: Links, l: nat, i: nat)
    requires l < |levels| && i < |levels[l]|
  {
    var n := levels[l][i];
    && n in links && l < |links[n]|
    && links[n][l] == Follower(levels[l], i)
    && (if i == 0 then n == head else n != head)
    && (i > 1 ==> levels[l][i - 1].key < n.key)
    && (l > 0 ==> n in levels[l - 1])
  }

  ghost predicate LevelOk(levels: seq<seq<Node>>, head: Node, links: Links, l: nat)
    requires l < |levels|
  {
    levels[l] != [] && forall i | 0 <= i < |levels[l]| :: NodeOk(levels, head, links, l, i)
  }

  /** Each level is a sorted sublist of the one below, linked as `levels` says. */
  ghost predicate WellLinked(levels: seq<seq<Node>>, head: Node, links: Links) {
    |levels| == MAX_HEIGHT && forall l | 0 <= l < MAX_HEIGHT :: LevelOk(levels, head, links, l)
  }

  lemma {:induction false} KeysGrow(levels: seq<seq<Node>>, head: Node, links: Links, l: nat, i: nat, j: nat)
    requires WellLinked(levels, head, links) && l < MAX_HEIGHT && 0 < i < j < |levels[l]|
    ensures levels[l][i].key < levels[l][j].key
    decreases j
  {
    assert LevelOk(levels, head, links, l) && NodeOk(levels, head, links, l, j);
    if i < j - 1 {
      KeysGrow(levels, head, links, l, i, j - 1);
    }
  }

  /** No node is linked twice at a level. */
  lemma Distinct(levels: seq<seq<Node>>, head: Node, links: Links, l: nat, i: nat, j: nat)
    requires WellLinked(levels, head, links) && l < MAX_HEIGHT && i < j < |levels[l]|
    ensures levels[l][i] != levels[l][j]
  {
    assert LevelOk(levels, head, links, l) && NodeOk(levels, head, links, l, i) && NodeOk(levels, head, links, l, j);
    if i > 0 {
      KeysGrow(levels, head, links, l, i, j);
    }
  }

  /** A cut divides the list: exactly the nodes up to it are before the key. */
  lemma CutSplits(levels: seq<seq<Node>>, head: Node, links: Links, l: nat, key: real, p: nat, i: nat)
    requires WellLinked(levels, head, links) && l < MAX_HEIGHT && IsCut(levels[l], key, p) && 0 < i < |levels[l]|
    ensures levels[l][i].key < key <==> i <= p
  {
    if i < p {
      KeysGrow(levels, head, links, l, i, p);
    } else if p + 1 < i {
      KeysGrow(levels, head, links, l, p + 1, i);
    }
  }

  /** Where a node of level l + 1 is on level l. */
  lemma Down(levels: seq<seq<Node>>, head: Node, links: Links, l: nat, i: nat) returns (j: nat)
    requires WellLinked(levels, head, links) && l + 1 < MAX_HEIGHT && i < |levels[l + 1]|
    ensures j < |levels[l]| && levels[l][j] == levels[l + 1][i] && (j == 0 <==> i == 0)
  {
    assert LevelOk(levels, head, links, l + 1) && NodeOk(levels, head, links, l + 1, i);
    assert LevelOk(levels, head, links, l) && NodeOk(levels, head, links, l, 0);
    j :| 0 <= j < |levels[l]| && levels[l][j] == levels[l + 1][i];
    assert NodeOk(levels, head, links, l, j);
  }

  /** Storing into a link that is not on its level yet changes nothing a reader sees. */
  lemma Unlinked(levels: seq<seq<Node>>, head: Node, links: Links, l: nat, x: Node, now: Links)
    requires WellLinked(levels, head, links) && l < MAX_HEIGHT && x !in levels[l]
    requires links.Keys <= now.Keys && forall n | n in links && n != x :: now[n] == links[n]
    requires x in links ==>
               |now[x]| == |links[x]| && forall m | 0 <= m < |links[x]| && m != l :: now[x][m] == links[x][m]
    ensures WellLinked(levels, head, now)
  {
    forall m | 0 <= m < MAX_HEIGHT
      ensures LevelOk(levels, head, now, m)
    {
      assert LevelOk(levels, head, links, m);
      forall j | 0 <= j < |levels[m]|
        ensures NodeOk(levels, head, now, m, j)
      {
        assert NodeOk(levels, head, links, m, j);
      }
    }
  }

  /** The store that links x behind node pos of level l. */
  lemma Linked(levels: seq<seq<Node>>, head: Node, links: Links, l: nat, x: Node, pos: nat)
    requires WellLinked(levels, head, links) && l < MAX_HEIGHT && pos < |levels[l]| && x in links && x !in levels[l]
    requires x != head
    requires l < |links[x]| && links[x][l] == Follower(levels[l], pos)
    requires IsCut(levels[l], x.key, pos) && (pos + 1 < |levels[l]| ==> x.key < levels[l][pos + 1].key)
    requires l > 0 ==> x in levels[l - 1]
    ensures levels[l][pos] in links && l < |links[levels[l][pos]]|
    ensures WellLinked(levels[l := InsertedAfter(levels[l], pos, x)], head,
                       links[levels[l][pos] := links[levels[l][pos]][l := x]])
  {
    assert LevelOk(levels, head, links, l) && NodeOk(levels, head, links, l, pos);
    var p := levels[l][pos];
    var after, now := levels[l := InsertedAfter(levels[l], pos, x)], links[p := links[p][l := x]];
    forall m | 0 <= m < MAX_HEIGHT && m != l
      ensures LevelOk(after, head, now, m)
    {
      assert LevelOk(levels, head, links, m);
      forall j | 0 <= j < |after[m]|
        ensures NodeOk(after, head, now, m, j)
      {
        assert NodeOk(levels, head, links, m, j);
      }
    }
    forall j | 0 <= j < |after[l]|
      ensures NodeOk(after, head, now, l, j)
    {
      if j <= pos {
        assert NodeOk(levels, head, links, l, j);
        if j < pos {
          Distinct(levels, head, links, l, j, pos);
        }
      } else if j > pos + 1 {
        assert NodeOk(levels, head, links, l, j - 1);
        Distinct(levels, head, links, l, pos, j - 1);
      }
    }
  }

  /** A key that is not at the bottom level is at none. */
  lemma {:induction false} AbsentAbove(levels: seq<seq<Node>>, head: Node, links: Links, key: real, l: nat, i: nat)
    requires WellLinked(levels, head, links) && l < MAX_HEIGHT && 0 < i < |levels[l]|
    requires forall j | 0 < j < |levels[0]| :: levels[0][j].key != key
    ensures levels[l][i].key != key
    decreases l
  {
    if l > 0 {
      var j := Down(levels, head, links, l - 1, i);
      AbsentAbove(levels, head, links, key, l - 1, j);
    }
  }

  /** Where the insertion of a key at a level goes. */
  ghost predicate InsertHere(level: seq<Node>, key: real, p: nat, n: Node) {
    IsCut(level, key, p) && n == level[p] && (p + 1 < |level| ==> key < level[p + 1].key)
  }

  class SkipList {
    const head: Node
    var maxHeight: nat
    /** The nodes linked at each level, the head first. */
    ghost var levels: seq<seq<Node>>
    ghost var nodes: set<Node>

    ghost function Reader(): Links
      reads this`nodes, nodes
    {
      map n | n in nodes :: n.next
    }

    ghost predicate Valid()
      reads this, nodes
    {
      && 1 <= maxHeight <= MAX_HEIGHT && WellLinked(levels, head, Reader())
      && forall l | maxHeight <= l < MAX_HEIGHT :: |levels[l]| == 1
    }

    constructor ()
      ensures Valid() && levels[0] == [head] && fresh(nodes)
    {
      var h := new Node(0.0, MAX_HEIGHT);
      head, maxHeight := h, 1;
      levels, nodes := seq(MAX_HEIGHT, _ => [h]), {h};
    }

    /**
     FindGreaterOrEqual, from any height a reader may have seen: the first node at or after the
     key, and the last node before it at every level.
     */
    method FindGreaterOrEqual(key: real, height: nat) returns (r: Node?, prev: seq<Node>, ghost pos: seq<nat>)
      requires Valid() && 1 <= height <= MAX_HEIGHT
      ensures |prev| == |pos| == height
      ensures forall l | 0 <= l < height :: IsCut(levels[l], key, pos[l]) && prev[l] == levels[l][pos[l]]
      ensures r == Follower(levels[0], pos[0])
    {
      var x, level := head, height - 1;
      prev := seq(height, _ => head);
      pos := seq(height, _ => 0);
      ghost var i: nat := 0;
      assert LevelOk(levels, head, Reader(), level) && NodeOk(levels, head, Reader(), level, 0);
      while true
        invariant 0 <= level < height && |prev| == |pos| == height
        invariant i < |levels[level]| && x == levels[level][i] && (i > 0 ==> x.key < key)
        invariant forall l | level < l < height :: IsCut(levels[l], key, pos[l]) && prev[l] == levels[l][pos[l]]
        decreases level, |levels[level]| - i
      {
        assert LevelOk(levels, head, Reader(), level) && NodeOk(levels, head, Reader(), level, i);
        var next := x.next[level];
        if next != null && next.key < key {
          x := next;
          i := i + 1;
        } else {
          prev := prev[level := x];
          pos := pos[level := i];
          if level == 0 {
            return next, prev, pos;
          }
          level := level - 1;
          i := Down(levels, head, Reader(), level, i);
        }
      }
    }

    /** FindLessThan: the last node before the key, the head if there is none. */
    method FindLessThan(key: real, height: nat) returns (x: Node, ghost p: nat)
      requires Valid() && 1 <= height <= MAX_HEIGHT
      ensures IsCut(levels[0], key, p) && x == levels[0][p]
    {
      var level := height - 1;
      x, p := head, 0;
      assert LevelOk(levels, head, Reader(), level) && NodeOk(levels, head, Reader(), level, 0);
      while true
        invariant 0 <= level < height
        invariant p < |levels[level]| && x == levels[level][p] && (p > 0 ==> x.key < key)
        decreases level, |levels[level]| - p
      {
        assert LevelOk(levels, head, Reader(), level) && NodeOk(levels, head, Reader(), level, p);
        var next := x.next[level];
        if next == null || next.key >= key {
          if level == 0 {
            return;
          }
          level := level - 1;
          p := Down(levels, head, Reader(), level, p);
        } else {
          x, p := next, p + 1;
        }
      }
    }

    /** FindLast */
    method FindLast(height: nat) returns (x: Node)
      requires Valid() && 1 <= height <= MAX_HEIGHT
      ensures levels[0] != [] && x == levels[0][|levels[0]| - 1]
    {
      var level := height - 1;
      x := head;
      ghost var i: nat := 0;
      assert LevelOk(levels, head, Reader(), level) && NodeOk(levels, head, Reader(), level, 0);
      while true
        invariant 0 <= level < height
        invariant i < |levels[level]| && x == levels[level][i]
        decreases level, |levels[level]| - i
      {
        assert LevelOk(levels, head, Reader(), level) && NodeOk(levels, head, Reader(), level, i);
        var next := x.next[level];
        if next == null {
          if level == 0 {
            return;
          }
          level := level - 1;
          i := Down(levels, head, Reader(), level, i);
        } else {
          x, i := next, i + 1;
        }
      }
    }

    /** Contains */
    method Contains(key: real) returns (found: bool)
      requires Valid()
      ensures found <==> exists i :: 0 < i < |levels[0]| && levels[0][i].key == key
    {
      var x, prev, pos := FindGreaterOrEqual(key, maxHeight);
      forall i | 0 < i < |levels[0]|
        ensures levels[0][i].key < key <==> i <= pos[0]
      {
        CutSplits(levels, head, Reader(), 0, key, pos[0], i);
      }
      found := x != null && x.key == key;
      assert x != null ==> x == levels[0][pos[0] + 1];
      if pos[0] + 1 < |levels[0]| {
        forall i | pos[0] + 1 < i < |levels[0]|
          ensures levels[0][i].key > levels[0][pos[0] + 1].key
        {
          KeysGrow(levels, head, Reader(), 0, pos[0] + 1, i);
        }
      }
    }

    /** The first store of a level, NoBarrier_SetNext: the node points ahead, and readers see nothing of it. */
    method PointAhead(l: nat, x: Node, p: Node, ghost pos: nat)
      requires Valid() && l < maxHeight && l < |x.next| && (l == 0 <==> x !in nodes) && x != head
      requires InsertHere(levels[l], x.key, pos, p) && x !in levels[l]
      modifies this`nodes, x
      ensures Valid() && nodes == old(nodes) + {x} && |x.next| == |old(x.next)|
      ensures x.next[l] == Follower(levels[l], pos)
    {
      ghost var was := Reader();
      assert LevelOk(levels, head, was, l) && NodeOk(levels, head, was, l, pos);
      x.next := x.next[l := p.next[l]];
      nodes := nodes + {x};
      Unlinked(levels, head, was, l, x, Reader());
    }

    /** The second store, SetNext: the node is on the level. */
    method LinkIn(l: nat, x: Node, p: Node, ghost pos: nat)
      requires Valid() && l < maxHeight && l < |x.next| && x in nodes && x != head
      requires InsertHere(levels[l], x.key, pos, p) && x !in levels[l] && x.next[l] == Follower(levels[l], pos)
      requires l > 0 ==> x in levels[l - 1]
      modifies this`levels, p
      ensures Valid() && levels == old(levels)[l := InsertedAfter(old(levels[l]), pos, x)]
    {
      ghost var was := Reader();
      assert LevelOk(levels, head, was, l) && NodeOk(levels, head, was, l, pos);
      Linked(levels, head, was, l, x, pos);
      p.next := p.next[l := x];
      levels := levels[l := InsertedAfter(levels[l], pos, x)];
      assert Reader() == was[p := was[p][l := x]];
    }

    /** One turn of the linking loop. */
    method LinkLevel(l: nat, x: Node, p: Node, ghost pos: nat)
      requires Valid() && l < maxHeight && l < |x.next| && (l == 0 <==> x !in nodes) && x != head
      requires InsertHere(levels[l], x.key, pos, p) && x !in levels[l]
      requires l > 0 ==> x in levels[l - 1]
      modifies this`levels, this`nodes, x, p
      ensures Valid() && nodes == old(nodes) + {x}
      ensures levels == old(levels)[l := InsertedAfter(old(levels[l]), pos, x)]
      ensures |x.next| == |old(x.next)|
    {
      PointAhead(l, x, p, pos);
      LinkIn(l, x, p, pos);
    }

    /** The predecessors of a new key at every level up to its height. */
    method Predecessors(key: real, height: nat) returns (prev: seq<Node>, ghost pos: seq<nat>)
      requires Valid() && 1 <= height <= MAX_HEIGHT
      requires forall j | 0 < j < |levels[0]| :: levels[0][j].key != key
      modifies this`maxHeight
      ensures Valid() && height <= maxHeight && |prev| >= height && |pos| == |prev|
      ensures forall l | 0 <= l < height :: InsertHere(levels[l], key, pos[l], prev[l])
    {
      var r;
      r, prev, pos := FindGreaterOrEqual(key, maxHeight);
      forall l | 0 <= l < maxHeight
        ensures InsertHere(levels[l], key, pos[l], prev[l])
      {
        if pos[l] + 1 < |levels[l]| {
          AbsentAbove(levels, head, Reader(), key, l, pos[l] + 1);
        }
      }
      if height > maxHeight {
        forall l | maxHeight <= l < height
          ensures InsertHere(levels[l], key, 0, head)
        {
          assert LevelOk(levels, head, Reader(), l) && NodeOk(levels, head, Reader(), l, 0);
        }
        prev := prev + seq(height - maxHeight, _ => head);
        pos := pos + seq(height - maxHeight, _ => 0);
        maxHeight := height;
      }
    }

    /** Insert: the new node is linked bottom up, and the list is valid after every store. */
    method Insert(key: real, height: nat) returns (x: Node, ghost p: nat)
      requires Valid() && 1 <= height <= MAX_HEIGHT
      requires forall j | 0 < j < |levels[0]| :: levels[0][j].key != key
      modifies this, nodes
      ensures Valid() && x.key == key && fresh(x) && nodes == old(nodes) + {x}
      ensures IsCut(old(levels[0]), key, p) && levels[0] == InsertedAfter(old(levels[0]), p, x)
    {
      var prev, pos := Predecessors(key, height);
      p := pos[0];
      x := new Node(key, height);
      forall l | 0 <= l < MAX_HEIGHT
        ensures x !in levels[l]
      {
        NodesLinked(l);
      }
      for i := 0 to height
        invariant Valid() && height <= maxHeight && |x.next| == height && x != head
        invariant nodes == old(nodes) + (if i > 0 then {x} else {}) && (i > 0 ==> x in levels[i - 1])
        invariant forall l | i <= l < MAX_HEIGHT :: levels[l] == old(levels[l]) && x !in levels[l]
        invariant i > 0 ==> levels[0] == InsertedAfter(old(levels[0]), p, x)
      {
        assert InsertHere(levels[i], key, pos[i], prev[i]);
        NodesLinked(i);
        LinkLevel(i, x, prev[i], pos[i]);
      }
    }

    lemma NodesLinked(l: nat)
      requires Valid() && l < MAX_HEIGHT
      ensures forall n | n in levels[l] :: n in nodes
    {
      assert LevelOk(levels, head, Reader(), l);
      forall i | 0 <= i < |levels[l]|
        ensures levels[l][i] in nodes
      {
        assert NodeOk(levels, head, Reader(), l, i);
      }
    }
  }
}
