/**
 A search of the skip list that interleaves with insertions: every link it follows is read at a
 later moment than the one before, and any number of stores may lie in between.
 */
module InterleavedSearch {
  import opened SkipList

  /** The list at one moment. */
  datatype Moment = Moment(levels: seq<seq<Node>>, links: Links)

  /** Nodes that are on a level stay there. */
  ghost predicate Grown(m: Moment, t: Moment) {
    |m.levels| == |t.levels| && forall l, n | 0 <= l < |m.levels| && n in m.levels[l] :: n in t.levels[l]
  }

  /** The second store of a level makes the list grow; the first leaves the levels as they are. */
  lemma LinkingGrows(levels: seq<seq<Node>>, l: nat, pos: nat, x: Node, links: Links, now: Links)
    requires l < |levels| && pos < |levels[l]|
    ensures Grown(Moment(levels, links), Moment(levels[l := InsertedAfter(levels[l], pos, x)], now))
  {
    var after := InsertedAfter(levels[l], pos, x);
    forall n | n in levels[l]
      ensures n in after
    {
      assert levels[l] == levels[l][..pos + 1] + levels[l][pos + 1..];
    }
  }

  /** Where a search is: the node it has come to and the level it looks at next. */
  datatype Spot = Spot(node: Node, level: nat)

  /** The link a search reads at a moment. */
  ghost predicate Reads(m: Moment, s: Spot, next: Node?) {
    s.node in m.links && s.level < |m.links[s.node]| && next == m.links[s.node][s.level]
  }

  /** One turn of FindGreaterOrEqual: on to the next node if its key is before, else a level down. */
  ghost predicate Turn(m: Moment, key: real, s: Spot, next: Node?, t: Spot) {
    Reads(m, s, next) &&
    if next != null && next.key < key then t == Spot(next, s.level) else s.level > 0 && t == Spot(s.node, s.level - 1)
  }

  /** A search from the head: turn i is taken at moment i, and the last link is read at the last moment. */
  ghost predicate IsSearch(head: Node, key: real, moments: seq<Moment>, spots: seq<Spot>, read: seq<Node?>) {
    && |moments| == |spots| == |read| > 0
    && (forall i | 0 <= i < |moments| :: WellLinked(moments[i].levels, head, moments[i].links))
    && (forall i | 0 < i < |moments| :: Grown(moments[i - 1], moments[i]))
    && spots[0].node == head && spots[0].level < MAX_HEIGHT
    && (forall i | 0 < i < |moments| :: Turn(moments[i - 1], key, spots[i - 1], read[i - 1], spots[i]))
    && var n := |moments| - 1;
       && spots[n].level == 0 && Reads(moments[n], spots[n], read[n])
       && (read[n] == null || read[n].key >= key)
  }

  /** The node is on the level at the moment, and it is the head or before the key. */
  ghost predicate Reached(m: Moment, head: Node, key: real, s: Spot) {
    s.level < |m.levels| && s.node in m.levels[s.level] && (s.node == head || s.node.key < key)
  }

  lemma HeadFirst(head: Node, m: Moment, l: nat)
    requires WellLinked(m.levels, head, m.links) && l < MAX_HEIGHT
    ensures head in m.levels[l] && m.levels[l] != [] && m.levels[l][0] == head
  {
    assert LevelOk(m.levels, head, m.links, l) && NodeOk(m.levels, head, m.links, l, 0);
  }

  /** The place of a node on its level, and what its link leads to. */
  lemma PlaceOf(head: Node, m: Moment, s: Spot) returns (p: nat)
    requires WellLinked(m.levels, head, m.links) && s.level < MAX_HEIGHT && s.node in m.levels[s.level]
    ensures p < |m.levels[s.level]| && m.levels[s.level][p] == s.node && (p == 0 <==> s.node == head)
    ensures Reads(m, s, Follower(m.levels[s.level], p))
  {
    p :| 0 <= p < |m.levels[s.level]| && m.levels[s.level][p] == s.node;
    assert LevelOk(m.levels, head, m.links, s.level) && NodeOk(m.levels, head, m.links, s.level, p);
  }

  lemma TurnReaches(head: Node, key: real, m: Moment, s: Spot, next: Node?, t: Spot)
    requires WellLinked(m.levels, head, m.links) && Reached(m, head, key, s) && Turn(m, key, s, next, t)
    ensures Reached(m, head, key, t)
  {
    var p := PlaceOf(head, m, s);
    if t.level < s.level {
      assert LevelOk(m.levels, head, m.links, s.level) && NodeOk(m.levels, head, m.links, s.level, p);
    }
  }

  lemma {:induction false} StaysReached(head: Node, key: real, moments: seq<Moment>, spots: seq<Spot>,
                                        read: seq<Node?>, i: nat)
    requires IsSearch(head, key, moments, spots, read) && i < |moments|
    ensures Reached(moments[i], head, key, spots[i])
  {
    if i == 0 {
      HeadFirst(head, moments[0], spots[0].level);
    } else {
      StaysReached(head, key, moments, spots, read, i - 1);
      TurnReaches(head, key, moments[i - 1], spots[i - 1], read[i - 1], spots[i]);
      assert Grown(moments[i - 1], moments[i]);
    }
  }

  /** What the search returns is the first node at or after the key at the moment of its last read. */
  lemma SearchIsRightAtItsEnd(head: Node, key: real, moments: seq<Moment>, spots: seq<Spot>, read: seq<Node?>)
    returns (p: nat)
    requires IsSearch(head, key, moments, spots, read)
    ensures var level := moments[|moments| - 1].levels[0];
            IsCut(level, key, p) && read[|read| - 1] == Follower(level, p)
  {
    var n := |moments| - 1;
    StaysReached(head, key, moments, spots, read, n);
    p := PlaceOf(head, moments[n], spots[n]);
  }

  lemma {:induction false} StillLinked(head: Node, key: real, moments: seq<Moment>, spots: seq<Spot>,
                                       read: seq<Node?>, x: Node, i: nat)
    requires IsSearch(head, key, moments, spots, read) && i < |moments| && x in moments[0].levels[0]
    ensures x in moments[i].levels[0]
  {
    if i > 0 {
      StillLinked(head, key, moments, spots, read, x, i - 1);
      assert Grown(moments[i - 1], moments[i]);
    }
  }

  /** A search finds every key that was linked at the bottom before it began. */
  lemma LinkedBeforeIsFound(head: Node, key: real, moments: seq<Moment>, spots: seq<Spot>, read: seq<Node?>, x: Node)
    requires IsSearch(head, key, moments, spots, read)
    requires x in moments[0].levels[0] && x != head && x.key == key
    ensures read[|read| - 1] == x
  {
    var n := |moments| - 1;
    var m := moments[n];
    var p := SearchIsRightAtItsEnd(head, key, moments, spots, read);
    StillLinked(head, key, moments, spots, read, x, n);
    var q := PlaceOf(head, m, Spot(x, 0));
    CutSplits(m.levels, head, m.links, 0, key, p, q);
    if p + 1 < q {
      KeysGrow(m.levels, head, m.links, 0, p + 1, q);
    }
  }
}
