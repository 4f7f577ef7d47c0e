/** Chain selection: the stored blocks and states, the path between two tips, and reorganizations. */
module Manager {
  import opened Types
  import opened Ledger
  import H = Difficulty
  import S = Safety

  // ---- Ancestry ----

  /** a is id or one of the blocks below it. */
  predicate Below(a: BlockID, id: BlockID) {
    a == id || (id.BlockID? && Below(a, id.parent))
  }

  /** The blocks from id down to c, without c. */
  function Descent(id: BlockID, c: BlockID): seq<BlockID> {
    if id == c || id.NoBlock? then [] else [id] + Descent(id.parent, c)
  }

  /** The same blocks, from the child of c up to id. */
  function Ascent(id: BlockID, c: BlockID): seq<BlockID> {
    if id == c || id.NoBlock? then [] else Ascent(id.parent, c) + [id]
  }

  /** The deepest block that both chains share. */
  function Common(a: BlockID, b: BlockID): BlockID
    decreases S.Depth(a) + S.Depth(b)
  {
    if a == b then a
    else if S.Depth(a) > S.Depth(b) then Common(a.parent, b)
    else if S.Depth(b) > S.Depth(a) then Common(a, b.parent)
    else if a.NoBlock? || b.NoBlock? then NoBlock
    else Common(a.parent, b.parent)
  }

  lemma {:induction false} BelowTransitive(a: BlockID, b: BlockID, c: BlockID)
    requires Below(a, b) && Below(b, c)
    ensures Below(a, c)
  {
    if b != c { BelowTransitive(a, b, c.parent); }
  }

  lemma {:induction false} BelowDepth(a: BlockID, b: BlockID)
    requires Below(a, b)
    ensures S.Depth(a) <= S.Depth(b) && (S.Depth(a) == S.Depth(b) ==> a == b)
  {
    if a != b { BelowDepth(a, b.parent); }
  }

  /** Common is a block of both chains, and every shared block is below it. */
  lemma {:induction false} CommonIs(a: BlockID, b: BlockID)
    ensures Below(Common(a, b), a) && Below(Common(a, b), b)
    ensures forall d :: Below(d, a) && Below(d, b) ==> Below(d, Common(a, b))
    decreases S.Depth(a) + S.Depth(b)
  {
    if a == b {
    } else if S.Depth(a) > S.Depth(b) {
      CommonIs(a.parent, b);
      forall d | Below(d, a) && Below(d, b) ensures Below(d, Common(a, b)) { BelowDepth(d, b); }
    } else if S.Depth(b) > S.Depth(a) {
      CommonIs(a, b.parent);
      forall d | Below(d, a) && Below(d, b) ensures Below(d, Common(a, b)) { BelowDepth(d, a); }
    } else {
      CommonIs(a.parent, b.parent);
      forall d | Below(d, a) && Below(d, b) ensures Below(d, Common(a, b)) { BelowDepth(d, a); BelowDepth(d, b); }
    }
  }

  function Reversed(s: seq<BlockID>): seq<BlockID> {
    if s == [] then [] else Reversed(s[1..]) + [s[0]]
  }

  lemma {:induction false} AscentIs(id: BlockID, c: BlockID)
    ensures Ascent(id, c) == Reversed(Descent(id, c))
  {
    if !(id == c || id.NoBlock?) {
      AscentIs(id.parent, c);
      assert Descent(id, c)[1..] == Descent(id.parent, c);
    }
  }

  // ---- The store ----

  /** A stored block; it is checked once it has been validated and applied. */
  datatype Stored = Stored(block: Block, checked: bool)

  type Blocks = map<BlockID, Stored>
  type States = map<BlockID, State>

  /** A position in a chain. */
  datatype Index = Index(height: nat, id: BlockID)

  // ---- Paths ----

  predicate LinkOk(g: BlockID, blocks: Blocks, id: BlockID)
    requires id in blocks
  {
    Below(g, id) && (id != g ==> BlockIdOf(blocks[id].block) == id && id.parent in blocks)
  }

  /** Every stored block descends from genesis g, through stored blocks. */
  predicate LinksOk(g: BlockID, blocks: Blocks) {
    g in blocks && S.Depth(g) == 1 && forall id :: id in blocks ==> LinkOk(g, blocks, id)
  }

  lemma {:induction false} RootOf(g: BlockID, id: BlockID)
    requires S.Depth(g) == 1 && Below(g, id)
    ensures S.Depth(id) >= 1 && (S.Depth(id) == 1 ==> id == g)
  {
    BelowDepth(g, id);
  }

  /** The index of a stored block, with its height. */
  predicate Placed(blocks: Blocks, i: Index) {
    i.id in blocks && S.Depth(i.id) == i.height + 1
  }

  /** The rewind closure: moves an index to its parent, unless the path is too long or the block is missing. */
  method Rewind(blocks: Blocks, index: Index, length: nat, maxLen: nat, ghost g: BlockID)
    returns (next: Index, ok: bool)
    requires LinksOk(g, blocks) && Placed(blocks, index) && index.height > 0
    ensures ok <==> length <= maxLen
    ensures ok ==> next == Index(index.height - 1, index.id.parent) && Placed(blocks, next)
  {
    if length > maxLen || index.id !in blocks {
      return index, false;
    }
    assert LinkOk(g, blocks, index.id);
    RootOf(g, index.id);
    next, ok := Index(index.height - 1, blocks[index.id].block.parent), true;
  }

  lemma {:induction false} DescentStep(id: BlockID, c: BlockID, done: seq<BlockID>)
    requires id.BlockID? && id != c
    ensures done + Descent(id, c) == (done + [id]) + Descent(id.parent, c)
  {}

  /** One chain's part of the path: from index down to the given height, which c does not exceed. */
  method RewindTo(blocks: Blocks, from: Index, height: nat, before: nat, maxLen: nat, ghost g: BlockID,
                  ghost c: BlockID)
    returns (index: Index, path: seq<BlockID>, ok: bool)
    requires LinksOk(g, blocks) && Placed(blocks, from) && height <= from.height && S.Depth(c) <= height + 1
    requires Below(c, from.id)
    ensures ok ==> Placed(blocks, index) && index.height == height && Below(c, index.id) && Below(index.id, from.id)
    ensures ok ==> Descent(from.id, c) == path + Descent(index.id, c)
    ensures ok <==> from.height == height || before + (from.height - height) <= maxLen
    ensures |path| <= from.height - height && (ok ==> |path| == from.height - height)
  {
    index, path := from, [];
    while index.height > height
      invariant Placed(blocks, index) && height <= index.height <= from.height && Below(c, index.id)
      invariant Below(index.id, from.id)
      invariant Descent(from.id, c) == path + Descent(index.id, c) && |path| == from.height - index.height
      invariant path != [] ==> before + |path| <= maxLen
      decreases index.height
    {
      ghost var was, done := index.id, path;
      path := path + [index.id];
      index, ok := Rewind(blocks, index, before + |path|, maxLen, g);
      if !ok {
        return;
      }
      DescentStep(was, c, done);
      BelowTransitive(index.id, was, from.id);
    }
    ok := true;
  }

  lemma {:induction false} CommonNone(b: BlockID)
    ensures Common(NoBlock, b) == NoBlock
  {
    if b.BlockID? { CommonNone(b.parent); }
  }

  lemma {:induction false} BelowBoth(a: BlockID, b: BlockID)
    requires Below(a, b) && Below(b, a)
    ensures a == b
  {
    BelowDepth(a, b);
    BelowDepth(b, a);
  }

  /** The third loop: both chains are rewound together until they meet. */
  method RewindBoth(blocks: Blocks, a0: Index, b0: Index, before: nat, maxLen: nat, ghost g: BlockID, ghost c: BlockID)
    returns (revert: seq<BlockID>, apply: seq<BlockID>, ok: bool)
    requires LinksOk(g, blocks) && Placed(blocks, a0) && Placed(blocks, b0) && a0.height == b0.height
    requires c == Common(a0.id, b0.id)
    ensures |revert| == |apply| && (ok ==> revert == Descent(a0.id, c) && apply == Descent(b0.id, c))
    ensures ok <==> a0.id == b0.id || before + |Descent(a0.id, c)| + |Descent(b0.id, c)| <= maxLen
  {
    CommonIs(a0.id, b0.id);
    var a, b := a0, b0;
    revert, apply := [], [];
    while a != b
      invariant Placed(blocks, a) && Placed(blocks, b) && a.height == b.height && |revert| == |apply|
      invariant Below(c, a.id) && Below(c, b.id) && Below(a.id, a0.id) && Below(b.id, b0.id)
      invariant Descent(a0.id, c) == revert + Descent(a.id, c) && Descent(b0.id, c) == apply + Descent(b.id, c)
      invariant revert != [] ==> before + |revert| + |apply| <= maxLen
      invariant revert == [] ==> a == a0 && b == b0
      decreases a.height
    {
      ghost var ra, rb, wa, wb := revert, apply, a.id, b.id;
      Apart(g, blocks, a, b, c);
      DescentStep(wa, c, ra);
      DescentStep(wb, c, rb);
      revert, apply := revert + [a.id], apply + [b.id];
      a, ok := Rewind(blocks, a, before + |revert| + |apply|, maxLen, g);
      if !ok {
        return;
      }
      b, ok := Rewind(blocks, b, before + |revert| + |apply|, maxLen, g);
      BelowTransitive(a.id, wa, a0.id);
      BelowTransitive(b.id, wb, b0.id);
    }
    BelowBoth(a.id, c);
    ok := true;
  }

  /** Two different blocks at one height are both above their common ancestor, and above genesis. */
  lemma {:induction false} Apart(g: BlockID, blocks: Blocks, a: Index, b: Index, c: BlockID)
    requires LinksOk(g, blocks) && Placed(blocks, a) && Placed(blocks, b) && a.height == b.height && a != b
    requires Below(c, a.id) && Below(c, b.id)
    ensures a.height > 0 && a.id.BlockID? && b.id.BlockID? && a.id != c && b.id != c
  {
    assert LinkOk(g, blocks, a.id) && LinkOk(g, blocks, b.id);
    RootOf(g, a.id);
    RootOf(g, b.id);
    BelowDepth(c, a.id);
    BelowDepth(c, b.id);
  }

  lemma {:induction false} CommonKept(a0: BlockID, b0: BlockID, a: BlockID, b: BlockID)
    requires Below(a, a0) && Below(b, b0) && Below(Common(a0, b0), a) && Below(Common(a0, b0), b)
    ensures Common(a, b) == Common(a0, b0)
  {
    CommonIs(a0, b0);
    CommonIs(a, b);
    BelowTransitive(Common(a, b), a, a0);
    BelowTransitive(Common(a, b), b, b0);
    BelowBoth(Common(a, b), Common(a0, b0));
  }

  /** The first two loops: the higher of the two indices is rewound until the heights match. */
  method Level(blocks: Blocks, a0: Index, b0: Index, maxLen: nat, ghost g: BlockID)
    returns (a: Index, b: Index, revert: seq<BlockID>, apply: seq<BlockID>, ok: bool)
    requires LinksOk(g, blocks) && Placed(blocks, b0) && (Placed(blocks, a0) || a0 == Index(0, NoBlock))
    ensures ok ==>
              && a.height == b.height && Placed(blocks, b) && (if a0.id == NoBlock then a == a0 else Placed(blocks, a))
              && Common(a.id, b.id) == Common(a0.id, b0.id)
              && Descent(a0.id, Common(a0.id, b0.id)) == revert + Descent(a.id, Common(a0.id, b0.id))
              && Descent(b0.id, Common(a0.id, b0.id)) == apply + Descent(b.id, Common(a0.id, b0.id))
              && (revert + apply != [] ==> |revert| + |apply| <= maxLen)
    ensures !ok ==> |Descent(a0.id, Common(a0.id, b0.id))| + |Descent(b0.id, Common(a0.id, b0.id))| > maxLen
  {
    ghost var c := Common(a0.id, b0.id);
    CommonIs(a0.id, b0.id);
    BelowDepth(c, b0.id);
    BelowDepth(c, a0.id);
    a, b, revert, apply, ok := a0, b0, [], [], true;
    if a.height > b.height {
      a, revert, ok := RewindTo(blocks, a, b.height, 0, maxLen, g, c);
      DescentLong(a0.id, c);
    } else if b.height > a.height {
      b, apply, ok := RewindTo(blocks, b, a.height, 0, maxLen, g, c);
      DescentLong(b0.id, c);
    }
    if ok { CommonKept(a0.id, b0.id, a.id, b.id); }
  }

  lemma {:induction false} DescentLong(id: BlockID, c: BlockID)
    requires Below(c, id)
    ensures |Descent(id, c)| == S.Depth(id) - S.Depth(c)
  {
    if id != c { DescentLong(id.parent, c); }
  }

  /** reorgPath: the descent from a to the common ancestor and the ascent from it to b.  It fails only if
      that path is longer than maxLen.  An uninitialized a stands for the empty chain before genesis. */
  method ReorgPath(blocks: Blocks, g: BlockID, a0: Index, b0: Index, maxLen: nat)
    returns (revert: seq<BlockID>, apply: seq<BlockID>, ok: bool)
    requires LinksOk(g, blocks) && Placed(blocks, b0) && (Placed(blocks, a0) || a0 == Index(0, NoBlock))
    ensures ok ==> revert == Descent(a0.id, Common(a0.id, b0.id)) && apply == Ascent(b0.id, Common(a0.id, b0.id))
    ensures !ok ==> |Descent(a0.id, Common(a0.id, b0.id))| + |Ascent(b0.id, Common(a0.id, b0.id))| > maxLen
    ensures ok && a0.id != NoBlock ==> |revert| + |apply| <= maxLen
  {
    ghost var c := Common(a0.id, b0.id);
    AscentIs(b0.id, c);
    ReversedLength(Descent(b0.id, c));
    var a, b;
    a, b, revert, apply, ok := Level(blocks, a0, b0, maxLen, g);
    if !ok {
      return;
    }
    if a == Index(0, NoBlock) {
      assert LinkOk(g, blocks, b.id);
      RootOf(g, b.id);
      CommonNone(b0.id);
      assert Descent(g, NoBlock) == [g] + Descent(g.parent, NoBlock) == [g];
      a, apply := Index(0, g), apply + [g];
      assert apply == Descent(b0.id, c) && apply + [] == apply;
    }
    var r, p;
    r, p, ok := RewindBoth(blocks, a, b, |revert| + |apply|, maxLen, g, Common(a.id, b.id));
    assert ok ==> apply + p == Descent(b0.id, c);
    revert, apply := revert + r, Reversed(apply + p);
  }

  lemma {:induction false} ReversedLength(s: seq<BlockID>)
    ensures |Reversed(s)| == |s|
  {
    if s != [] { ReversedLength(s[1..]); }
  }

  // ---- The store ----

  /** The consensus rules, as far as chain selection uses them. */
  datatype Rules = Rules(chain: H.Chain, orphan: (State, Block) -> bool, valid: (State, Block) -> bool,
                         apply: (State, Block) -> State)

  /** Applying a block of the chain leads to its index, with the work fields that its header alone gives. */
  ghost predicate Lawful(r: Rules) {
    forall s, b {:trigger r.apply(s, b)} ::
      r.apply(s, b).id == BlockIdOf(b) && r.apply(s, b).head == H.NextHead(r.chain, s.head, b.timestamp)
  }

  function RulesOf(net: Network): Rules {
    Rules(net.chain,
          (s, b) => OrphanOk(net, s, b),
          (s, b) => BlockVerdict(net, s, b) == Accepted,
          (s, b) => ApplyBlock(net, s, b))
  }

  lemma {:induction false} LedgerIsLawful(net: Network)
    ensures Lawful(RulesOf(net))
  {}

  /** The work fields of a stored state follow from the parent's, and the state of a checked block is what
      the block makes of its parent's state, on which it is valid. */
  ghost predicate NodeOk(r: Rules, g: BlockID, blocks: Blocks, states: States, id: BlockID)
    requires blocks.Keys == states.Keys && LinksOk(g, blocks) && id in blocks
  {
    && states[id].id == id && S.Depth(id) == states[id].head.height + 1
    && (id == g ==> blocks[id].checked)
    && (id != g ==> LinkOk(g, blocks, id) && Follows(r, blocks, states, id))
  }

  ghost predicate Follows(r: Rules, blocks: Blocks, states: States, id: BlockID)
    requires blocks.Keys == states.Keys && id in blocks && id.BlockID? && id.parent in blocks
  {
    && states[id].head == H.NextHead(r.chain, states[id.parent].head, id.timestamp)
    && (blocks[id].checked ==>
          && blocks[id.parent].checked && r.valid(states[id.parent], blocks[id].block)
          && states[id] == r.apply(states[id.parent], blocks[id].block))
  }

  ghost predicate StoreOk(r: Rules, g: BlockID, blocks: Blocks, states: States) {
    && Lawful(r) && blocks.Keys == states.Keys && LinksOk(g, blocks)
    && forall id :: id in blocks ==> NodeOk(r, g, blocks, states, id)
  }

  /** What was checked stays as it was, and no block is lost. */
  predicate Keeps(blocks: Blocks, states: States, blocks': Blocks, states': States) {
    && blocks.Keys <= blocks'.Keys && blocks.Keys == states.Keys && blocks'.Keys == states'.Keys
    && (forall id :: id in blocks ==> states'[id].head == states[id].head)
    && (forall id :: id in blocks && blocks[id].checked ==> blocks'[id] == blocks[id] && states'[id] == states[id])
  }

  lemma {:induction false} LinksKept(g: BlockID, blocks: Blocks, id: BlockID, checked: bool)
    requires LinksOk(g, blocks) && id in blocks
    ensures LinksOk(g, blocks[id := Stored(blocks[id].block, checked)])
  {
    var blocks' := blocks[id := Stored(blocks[id].block, checked)];
    forall i | i in blocks' ensures LinkOk(g, blocks', i) { assert LinkOk(g, blocks, i); }
  }

  /** Checking a block on its checked parent keeps the store consistent. */
  lemma {:induction false} CheckKeeps(r: Rules, g: BlockID, blocks: Blocks, states: States, id: BlockID)
    requires StoreOk(r, g, blocks, states) && id in blocks && id != g && id.BlockID? && id.parent in blocks
    requires !blocks[id].checked && blocks[id.parent].checked && r.valid(states[id.parent], blocks[id].block)
    ensures var blocks' := blocks[id := Stored(blocks[id].block, true)];
            var states' := states[id := r.apply(states[id.parent], blocks[id].block)];
            StoreOk(r, g, blocks', states') && Keeps(blocks, states, blocks', states')
  {
    var blocks' := blocks[id := Stored(blocks[id].block, true)];
    var states' := states[id := r.apply(states[id.parent], blocks[id].block)];
    LinksKept(g, blocks, id, true);
    assert NodeOk(r, g, blocks, states, id);
    forall i | i in blocks'
      ensures NodeOk(r, g, blocks', states', i)
    {
      assert NodeOk(r, g, blocks, states, i);
    }
  }

  // ---- Walking a path ----

  lemma {:induction false} AscentAt(id: BlockID, c: BlockID, i: nat)
    requires Below(c, id) && i < |Ascent(id, c)|
    ensures var path := Ascent(id, c);
            && path[i].BlockID? && path[i].parent == (if i == 0 then c else path[i - 1])
            && Below(path[i], id) && Below(c, path[i]) && path[i] != c && path[|path| - 1] == id
  {
    var path := Ascent(id, c);
    if i < |path| - 1 {
      AscentAt(id.parent, c, i);
      assert path[..|path| - 1] == Ascent(id.parent, c);
    } else {
      BelowDepth(c, id.parent);
      if id.parent != c { AscentAt(id.parent, c, |path| - 2); }
    }
  }

  lemma {:induction false} StoredBelow(g: BlockID, blocks: Blocks, id: BlockID, a: BlockID)
    requires LinksOk(g, blocks) && id in blocks && Below(g, a) && Below(a, id)
    ensures a in blocks && (a != g ==> a.BlockID? && a.parent in blocks)
  {
    assert LinkOk(g, blocks, id);
    if a != id {
      if id == g { BelowBoth(g, a); }
      StoredBelow(g, blocks, id.parent, a);
    }
  }

  /** The common ancestor of two stored blocks is stored. */
  lemma {:induction false} CommonStored(g: BlockID, blocks: Blocks, a: BlockID, b: BlockID)
    requires LinksOk(g, blocks) && a in blocks && b in blocks
    ensures Below(g, Common(a, b)) && Common(a, b) in blocks
  {
    assert LinkOk(g, blocks, a) && LinkOk(g, blocks, b);
    CommonIs(a, b);
    StoredBelow(g, blocks, a, Common(a, b));
  }

  lemma {:induction false} AboveRoot(g: BlockID, c: BlockID, id: BlockID)
    requires Below(g, c) && Below(c, id) && id != c
    ensures id != g && id.BlockID?
  {
    if id == g { BelowBoth(g, c); }
  }

  lemma {:induction false} KeepsSame(r: Rules, g: BlockID, blocks: Blocks, states: States)
    requires StoreOk(r, g, blocks, states)
    ensures Keeps(blocks, states, blocks, states)
  {}

  lemma {:induction false} StoredId(r: Rules, g: BlockID, blocks: Blocks, states: States, id: BlockID)
    requires StoreOk(r, g, blocks, states) && id in blocks
    ensures id in states && states[id].id == id
  {
    assert NodeOk(r, g, blocks, states, id);
  }

  lemma {:induction false} KeepsTransitive(b0: Blocks, s0: States, b1: Blocks, s1: States, b2: Blocks, s2: States)
    requires Keeps(b0, s0, b1, s1) && Keeps(b1, s1, b2, s2)
    ensures Keeps(b0, s0, b2, s2)
  {}

  predicate AllChecked(blocks: Blocks, path: seq<BlockID>) {
    forall i :: 0 <= i < |path| ==> path[i] in blocks && blocks[path[i]].checked
  }

  /** Everything below a checked block is checked. */
  lemma {:induction false} CheckedBelow(r: Rules, g: BlockID, blocks: Blocks, states: States, id: BlockID, a: BlockID)
    requires StoreOk(r, g, blocks, states) && id in blocks && blocks[id].checked && Below(g, a) && Below(a, id)
    ensures a in blocks && blocks[a].checked
    decreases S.Depth(id)
  {
    assert NodeOk(r, g, blocks, states, id);
    if a != id {
      if id == g { BelowBoth(g, a); }
      CheckedBelow(r, g, blocks, states, id.parent, a);
    }
  }

  lemma {:induction false} PathChecked(r: Rules, g: BlockID, blocks: Blocks, states: States, id: BlockID, c: BlockID)
    requires StoreOk(r, g, blocks, states) && id in blocks && blocks[id].checked && Below(g, c) && Below(c, id)
    ensures AllChecked(blocks, Ascent(id, c))
  {
    forall i | 0 <= i < |Ascent(id, c)|
      ensures Ascent(id, c)[i] in blocks && blocks[Ascent(id, c)[i]].checked
    {
      AscentAt(id, c, i);
      BelowTransitive(g, c, Ascent(id, c)[i]);
      CheckedBelow(r, g, blocks, states, id, Ascent(id, c)[i]);
    }
  }

  /** The state after applying the blocks of a path in turn, unless one of them was not checked before and
      is invalid in its place. */
  function Advance(r: Rules, s: State, blocks: Blocks, path: seq<BlockID>): Option<State> {
    if path == [] then Some(s)
    else
      var m, id := Advance(r, s, blocks, path[..|path| - 1]), path[|path| - 1];
      if m.Some? && id in blocks && (blocks[id].checked || r.valid(m.value, blocks[id].block))
      then Some(r.apply(m.value, blocks[id].block))
      else None
  }

  lemma {:induction false} AdvanceNext(r: Rules, s: State, blocks: Blocks, path: seq<BlockID>, i: nat, m: State)
    requires i < |path| && Advance(r, s, blocks, path[..i]) == Some(m) && path[i] in blocks
    ensures var b := blocks[path[i]];
            Advance(r, s, blocks, path[..i + 1]) ==
            if b.checked || r.valid(m, b.block) then Some(r.apply(m, b.block)) else None
  {
    assert path[..i + 1][..i] == path[..i];
  }

  lemma {:induction false} AdvanceStops(r: Rules, s: State, blocks: Blocks, path: seq<BlockID>, i: nat)
    requires i <= |path| && Advance(r, s, blocks, path[..i]).None?
    ensures Advance(r, s, blocks, path).None?
    decreases |path|
  {
    if i < |path| {
      assert path[..|path| - 1][..i] == path[..i];
      AdvanceStops(r, s, blocks, path[..|path| - 1], i);
    } else {
      assert path[..i] == path;
    }
  }

  lemma {:induction false} CheckedAdvances(r: Rules, s: State, blocks: Blocks, path: seq<BlockID>)
    requires AllChecked(blocks, path)
    ensures Advance(r, s, blocks, path).Some?
  {
    if path != [] {
      var n := |path| - 1;
      CheckedAdvances(r, s, blocks, path[..n]);
      assert path[n] in blocks && blocks[path[n]].checked;
    }
  }

  /** Blocks deeper than the given one have not been touched. */
  ghost predicate SameAbove(blocks: Blocks, blocks': Blocks, tip: BlockID) {
    forall id :: id in blocks && S.Depth(id) > S.Depth(tip) ==> id in blocks' && blocks'[id] == blocks[id]
  }

  lemma {:induction false} SameAboveNext(blocks: Blocks, now: Blocks, tip: BlockID, id: BlockID, entry: Stored)
    requires SameAbove(blocks, now, tip) && id.BlockID? && id.parent == tip
    ensures SameAbove(blocks, now[id := entry], id)
  {}

  /** The place of a block on the way up from a stored ancestor. */
  lemma {:induction false} PathPlace(g: BlockID, blocks: Blocks, target: BlockID, c: BlockID, i: nat)
    requires LinksOk(g, blocks) && target in blocks && c in blocks && Below(c, target) && i < |Ascent(target, c)|
    ensures var path := Ascent(target, c);
            path[i] in blocks && path[i] != g && path[i].BlockID? && path[i].parent == if i == 0 then c else path[i - 1]
  {
    var path := Ascent(target, c);
    assert LinkOk(g, blocks, c);
    AscentAt(target, c, i);
    BelowTransitive(g, c, path[i]);
    AboveRoot(g, c, path[i]);
    StoredBelow(g, blocks, target, path[i]);
  }

  lemma {:induction false} AscentEnds(target: BlockID, c: BlockID)
    requires Below(c, target)
    ensures var path := Ascent(target, c); if path == [] then c == target else path[|path| - 1] == target
  {
    if Ascent(target, c) != [] { AscentAt(target, c, |Ascent(target, c)| - 1); }
  }

  // ---- The tip is the fold of its chain ----

  function Fold(r: Rules, s: State, bs: seq<Block>): State {
    if bs == [] then s else r.apply(Fold(r, s, bs[..|bs| - 1]), bs[|bs| - 1])
  }

  /** Every block is valid on the state that those before it lead to. */
  predicate ValidRun(r: Rules, s: State, bs: seq<Block>) {
    bs == [] || (ValidRun(r, s, bs[..|bs| - 1]) && r.valid(Fold(r, s, bs[..|bs| - 1]), bs[|bs| - 1]))
  }

  /** The stored blocks from genesis to id. */
  function ChainTo(g: BlockID, blocks: Blocks, id: BlockID): seq<Block>
    requires LinksOk(g, blocks) && id in blocks
    decreases S.Depth(id)
  {
    assert LinkOk(g, blocks, id);
    if id == g then [] else ChainTo(g, blocks, id.parent) + [blocks[id].block]
  }

  /** The state of every checked block, and so the tip's, is the fold of its chain from genesis, every
      block of which is valid in its place. */
  lemma {:induction false} CheckedIsFold(r: Rules, g: BlockID, blocks: Blocks, states: States, id: BlockID)
    requires StoreOk(r, g, blocks, states) && id in blocks && blocks[id].checked
    ensures states[id] == Fold(r, states[g], ChainTo(g, blocks, id)) && ValidRun(r, states[g], ChainTo(g, blocks, id))
    decreases S.Depth(id)
  {
    assert NodeOk(r, g, blocks, states, id);
    if id != g {
      CheckedIsFold(r, g, blocks, states, id.parent);
      var bs := ChainTo(g, blocks, id.parent);
      assert (bs + [blocks[id].block])[..|bs|] == bs;
    }
  }

  lemma {:induction false} FoldPrefix(r: Rules, s: State, bs: seq<Block>, k: nat)
    requires 0 < k <= |bs|
    ensures Fold(r, s, bs[..k]) == r.apply(Fold(r, s, bs[..k - 1]), bs[k - 1])
  {
    assert bs[..k][..k - 1] == bs[..k - 1];
  }

  /** Every block of a valid run is valid on the fold of those before it. */
  lemma {:induction false} ValidAt(r: Rules, s: State, bs: seq<Block>, k: nat)
    requires ValidRun(r, s, bs) && k < |bs|
    ensures r.valid(Fold(r, s, bs[..k]), bs[k])
    decreases |bs|
  {
    if k < |bs| - 1 {
      ValidAt(r, s, bs[..|bs| - 1], k);
      assert bs[..|bs| - 1][..k] == bs[..k];
    }
  }

  // ---- Adding blocks ----

  /** ApplyHeader: the work fields after a block; the rest is still that of the parent. */
  function ApplyHeader(r: Rules, s: State, b: Block): State {
    s.(id := BlockIdOf(b), head := H.NextHead(r.chain, s.head, b.timestamp))
  }

  lemma {:induction false} AddLinks(g: BlockID, blocks: Blocks, b: Block)
    requires LinksOk(g, blocks) && b.parent in blocks
    ensures BlockIdOf(b) != g && LinksOk(g, blocks[BlockIdOf(b) := Stored(b, false)])
  {
    var id := BlockIdOf(b);
    var blocks' := blocks[id := Stored(b, false)];
    assert LinkOk(g, blocks, b.parent);
    RootOf(g, b.parent);
    forall i | i in blocks' ensures LinkOk(g, blocks', i) { if i != id { assert LinkOk(g, blocks, i); } }
  }

  /** Storing an unchecked block on a stored parent keeps the store consistent, even if it replaces
      another body with the same header. */
  lemma {:induction false} AddKeeps(r: Rules, g: BlockID, blocks: Blocks, states: States, b: Block)
    requires StoreOk(r, g, blocks, states) && b.parent in blocks
    requires BlockIdOf(b) in blocks ==> !blocks[BlockIdOf(b)].checked
    ensures var blocks' := blocks[BlockIdOf(b) := Stored(b, false)];
            var states' := states[BlockIdOf(b) := ApplyHeader(r, states[b.parent], b)];
            StoreOk(r, g, blocks', states') && Keeps(blocks, states, blocks', states')
  {
    var id := BlockIdOf(b);
    var blocks' := blocks[id := Stored(b, false)];
    var states' := states[id := ApplyHeader(r, states[b.parent], b)];
    AddLinks(g, blocks, b);
    assert NodeOk(r, g, blocks, states, b.parent);
    if id in blocks { assert NodeOk(r, g, blocks, states, id); }
    forall i | i in blocks'
      ensures NodeOk(r, g, blocks', states', i)
    {
      if i != id { assert NodeOk(r, g, blocks, states, i); }
    }
  }

  /** SufficientlyHeavierThan: more work by over a fifth of the other's current difficulty. */
  predicate Heavier(s: State, t: State) {
    s.head.totalWork > t.head.totalWork + t.head.difficulty / 5
  }

  const THREE_HOURS: int := 10_800

  /** MaxFutureTimestamp: before genesis time, no first block from the future. */
  function MaxFuture(r: Rules, s: State, now: int): int {
    if Child(s) == 1 && now < r.chain.genesis then now else now + THREE_HOURS
  }

  datatype Outcome = Unchanged | Reorged | Failed

  /** What becomes of a stored chain that ends in cs, if applying it leads to next. */
  function Decision(cs: State, tip: State, next: Option<State>): Outcome {
    if !Heavier(cs, tip) then Unchanged else if next.Some? then Reorged else Failed
  }

  datatype Intake = Intake(blocks: Blocks, states: States, cs: State)

  /** What AddBlocks does with one block: nothing if it was checked before, and otherwise it stores the block
      and its header's state, unless the parent is unknown, the time is too late or the block does not fit it. */
  function TakeIn(r: Rules, t: Intake, b: Block, now: int): Option<Intake> {
    var id := BlockIdOf(b);
    if id in t.blocks && t.blocks[id].checked && id in t.states then Some(t.(cs := t.states[id]))
    else if b.parent !in t.states then None
    else if b.timestamp > MaxFuture(r, t.states[b.parent], now) || !r.orphan(t.states[b.parent], b) then None
    else
      var cs := ApplyHeader(r, t.states[b.parent], b);
      Some(Intake(t.blocks[id := Stored(b, false)], t.states[id := cs], cs))
  }

  function TakeAllIn(r: Rules, t: Intake, bs: seq<Block>, now: int): Option<Intake> {
    if bs == [] then Some(t)
    else
      var m := TakeAllIn(r, t, bs[..|bs| - 1], now);
      if m.None? then None else TakeIn(r, m.value, bs[|bs| - 1], now)
  }

  lemma {:induction false} TakeNext(r: Rules, t: Intake, bs: seq<Block>, now: int, i: nat, m: Intake)
    requires i < |bs| && TakeAllIn(r, t, bs[..i], now) == Some(m)
    ensures TakeAllIn(r, t, bs[..i + 1], now) == TakeIn(r, m, bs[i], now)
  {
    assert bs[..i + 1][..i] == bs[..i];
  }

  lemma {:induction false} TakeStops(r: Rules, t: Intake, bs: seq<Block>, now: int, i: nat)
    requires i <= |bs| && TakeAllIn(r, t, bs[..i], now).None?
    ensures TakeAllIn(r, t, bs, now).None?
    decreases |bs|
  {
    if i < |bs| {
      assert bs[..|bs| - 1][..i] == bs[..i];
      TakeStops(r, t, bs[..|bs| - 1], now, i);
    } else {
      assert bs[..i] == bs;
    }
  }

  class Manager {
    const rules: Rules
    const genesis: BlockID
    var blocks: Blocks
    var states: States
    var tipState: State

    /** The store is consistent, and the tip is a checked block with its stored state. */
    ghost predicate Valid()
      reads this
    {
      && StoreOk(rules, genesis, blocks, states)
      && tipState.id in blocks && blocks[tipState.id].checked && states[tipState.id] == tipState
    }

    constructor (net: Network, genesisBlock: Block, s: State)
      requires S.Depth(s.id) == 1 && s.head.height == 0
      ensures Valid() && rules == RulesOf(net) && genesis == s.id && tipState == s && states == map[s.id := s]
    {
      rules, genesis, tipState := RulesOf(net), s.id, s;
      blocks, states := map[s.id := Stored(genesisBlock, true)], map[s.id := s];
      LedgerIsLawful(net);
    }

    /** revertTip: back to the stored state of the parent. */
    method RevertTip()
      requires Valid() && tipState.id != genesis
      modifies this`tipState
      ensures Valid() && old(tipState.id).BlockID? && tipState.id == old(tipState.id).parent
      ensures tipState == states[tipState.id]
    {
      assert NodeOk(rules, genesis, blocks, states, tipState.id);
      tipState := states[blocks[tipState.id].block.parent];
      assert NodeOk(rules, genesis, blocks, states, tipState.id);
    }

    /** applyTip: validates the block unless that has been done before, and makes it the tip. */
    method ApplyTip(id: BlockID) returns (ok: bool)
      requires Valid() && id in blocks && id != genesis && id.BlockID? && id.parent == tipState.id
      modifies this`blocks, this`states, this`tipState
      ensures Valid() && Keeps(old(blocks), old(states), blocks, states)
      ensures ok <==> old(blocks)[id].checked || rules.valid(old(tipState), old(blocks)[id].block)
      ensures ok ==> tipState.id == id && tipState == rules.apply(old(tipState), old(blocks)[id].block)
      ensures ok ==> blocks == old(blocks)[id := Stored(old(blocks)[id].block, true)]
      ensures ok ==> states == old(states)[id := tipState]
      ensures !ok ==> tipState == old(tipState) && blocks == old(blocks) && states == old(states)
    {
      assert NodeOk(rules, genesis, blocks, states, id);
      var b := blocks[id].block;
      if !blocks[id].checked {
        if !rules.valid(tipState, b) {
          return false;
        }
        CheckKeeps(rules, genesis, blocks, states, id);
        states := states[id := rules.apply(tipState, b)];
        blocks := blocks[id := Stored(b, true)];
      }
      tipState := rules.apply(tipState, b);
      assert NodeOk(rules, genesis, blocks, states, id);
      ok := true;
    }

    /** Reverts the tip down to its ancestor c. */
    method RevertAll(path: seq<BlockID>, ghost c: BlockID)
      requires Valid() && Below(genesis, c) && Below(c, tipState.id) && path == Descent(tipState.id, c)
      modifies this`tipState
      ensures Valid() && tipState.id == c
    {
      hide NodeOk;
      for i := 0 to |path|
        invariant Valid() && Below(c, tipState.id) && Descent(tipState.id, c) == path[i..]
      {
        AboveRoot(genesis, c, tipState.id);
        assert Descent(tipState.id, c)[1..] == path[i + 1..];
        RevertTip();
      }
      if tipState.id != c { AboveRoot(genesis, c, tipState.id); }
    }

    /** The tip is at position i of a path that was started in state c of an earlier store. */
    ghost predicate Climbing(path: seq<BlockID>, i: nat, c: State, blocks0: Blocks, states0: States)
      requires i <= |path|
      reads this
    {
      && Valid() && Keeps(blocks0, states0, blocks, states) && SameAbove(blocks0, blocks, tipState.id)
      && tipState.id == (if i == 0 then c.id else path[i - 1])
      && Advance(rules, c, blocks0, path[..i]) == Some(tipState)
    }

    /** Applies one block of a path, on what the blocks before it have left. */
    method ApplyNext(path: seq<BlockID>, i: nat, target: BlockID, ghost c: State, ghost blocks0: Blocks,
                     ghost states0: States)
      returns (ok: bool)
      requires LinksOk(genesis, blocks0) && target in blocks0 && c.id in blocks0 && Below(c.id, target)
      requires path == Ascent(target, c.id)
      requires i < |path| && Climbing(path, i, c, blocks0, states0)
      modifies this`blocks, this`states, this`tipState
      ensures if ok then Climbing(path, i + 1, c, blocks0, states0)
              else Climbing(path, i, c, blocks0, states0) && Advance(rules, c, blocks0, path[..i + 1]).None?
    {
      hide Below, Ascent, NodeOk;
      PathPlace(genesis, blocks0, target, c.id, i);
      AdvanceNext(rules, c, blocks0, path, i, tipState);
      ghost var b1, s1 := blocks, states;
      ok := ApplyTip(path[i]);
      KeepsTransitive(blocks0, states0, b1, s1, blocks, states);
      SameAboveNext(blocks0, b1, old(tipState.id), path[i], Stored(b1[path[i]].block, true));
    }

    /** Applies the blocks from the tip up to target, stopping at the first that is invalid. */
    method ApplyAll(path: seq<BlockID>, target: BlockID) returns (ok: bool)
      requires Valid() && target in blocks && Below(tipState.id, target) && path == Ascent(target, tipState.id)
      modifies this`blocks, this`states, this`tipState
      ensures Valid() && Keeps(old(blocks), old(states), blocks, states) && (ok ==> tipState.id == target)
      ensures ok <==> Advance(rules, old(tipState), old(blocks), path).Some?
      ensures ok ==> Advance(rules, old(tipState), old(blocks), path) == Some(tipState)
    {
      hide Below, Ascent, NodeOk;
      ghost var c := tipState;
      for i := 0 to |path|
        invariant Climbing(path, i, c, old(blocks), old(states))
      {
        ok := ApplyNext(path, i, target, c, old(blocks), old(states));
        if !ok {
          AdvanceStops(rules, c, old(blocks), path, i + 1);
          return;
        }
      }
      assert path[..|path|] == path;
      AscentEnds(target, c.id);
      ok := true;
    }

    /** The state at target, reached from the common ancestor with the tip. */
    function Advances(blocks: Blocks, states: States, tip: BlockID, target: BlockID): Option<State>
      requires Common(tip, target) in states
    {
      Advance(rules, states[Common(tip, target)], blocks, Ascent(target, Common(tip, target)))
    }

    /** reorgTo: reverts to the common ancestor and applies up to target.  On failure the tip is a valid
        block between them. */
    method ReorgTo(target: BlockID) returns (ok: bool)
      requires Valid() && target in blocks
      modifies this`blocks, this`states, this`tipState
      ensures Valid() && Keeps(old(blocks), old(states), blocks, states)
      ensures Common(old(tipState.id), target) in old(states) && (ok ==> tipState.id == target)
      ensures var next := Advances(old(blocks), old(states), old(tipState.id), target);
              (ok <==> next.Some?) && (ok ==> next == Some(tipState))
    {
      ghost var c := Common(tipState.id, target);
      CommonIs(tipState.id, target);
      CommonStored(genesis, blocks, tipState.id, target);
      assert NodeOk(rules, genesis, blocks, states, tipState.id) && NodeOk(rules, genesis, blocks, states, target);
      var a, b := Index(tipState.head.height, tipState.id), Index(states[target].head.height, target);
      DescentLong(tipState.id, c);
      DescentLong(target, c);
      AscentIs(target, c);
      ReversedLength(Descent(target, c));
      var revert, apply;
      // The limit math.MaxInt is out of reach.
      revert, apply, ok := ReorgPath(blocks, genesis, a, b, a.height + b.height + 2);
      RevertAll(revert, c);
      ok := ApplyAll(apply, target);
    }

    /** The rest of AddBlocks, once the blocks are stored: a sufficiently heavier chain becomes the best
        one if it is valid, and otherwise the old tip is restored. */
    method Switch(cs: State) returns (r: Outcome)
      requires Valid() && cs.id in blocks && states[cs.id].head == cs.head
      modifies this`blocks, this`states, this`tipState
      ensures Valid() && Keeps(old(blocks), old(states), blocks, states)
      ensures Common(old(tipState.id), cs.id) in old(states)
      ensures r == Decision(cs, old(tipState), Advances(old(blocks), old(states), old(tipState.id), cs.id))
      ensures r == Reorged ==> tipState.id == cs.id && Heavier(tipState, old(tipState))
      ensures r != Reorged ==> tipState == old(tipState)
    {
      CommonStored(genesis, blocks, tipState.id, cs.id);
      if !Heavier(cs, tipState) {
        return Unchanged;
      }
      var oldTip := tipState.id;
      var ok := ReorgTo(cs.id);
      if ok {
        return Reorged;
      }
      ghost var b1, s1 := blocks, states;
      Restorable(oldTip);
      CommonStored(genesis, blocks, tipState.id, oldTip);
      CheckedAdvances(rules, states[Common(tipState.id, oldTip)], blocks, Ascent(oldTip, Common(tipState.id, oldTip)));
      ok := ReorgTo(oldTip);
      KeepsTransitive(old(blocks), old(states), b1, s1, blocks, states);
      r := Failed;
    }

    /** The way back to a checked block is checked. */
    lemma Restorable(id: BlockID)
      requires Valid() && id in blocks && blocks[id].checked
      ensures AllChecked(blocks, Ascent(id, Common(tipState.id, id)))
    {
      CommonIs(tipState.id, id);
      CommonStored(genesis, blocks, tipState.id, id);
      PathChecked(rules, genesis, blocks, states, id, Common(tipState.id, id));
    }

    /** One round of AddBlocks: cs is the state of the block before, or of any stored block. */
    method AddBlock(cs0: State, b: Block, now: int) returns (cs: State, ok: bool)
      requires Valid() && cs0.id in blocks && states[cs0.id] == cs0
      modifies this`blocks, this`states
      ensures Valid() && Keeps(old(blocks), old(states), blocks, states)
      ensures var next := TakeIn(rules, Intake(old(blocks), old(states), cs0), b, now);
              (ok <==> next.Some?) && (ok ==> next == Some(Intake(blocks, states, cs)))
      ensures !ok ==> blocks == old(blocks) && states == old(states)
      ensures ok ==> cs.id in blocks && states[cs.id] == cs
    {
      hide MaxFuture, NodeOk, LinksOk, Keeps, H.NextHead;
      cs := cs0;
      var bid := BlockIdOf(b);
      KeepsSame(rules, genesis, blocks, states);
      if bid in blocks && blocks[bid].checked {
        StoredId(rules, genesis, blocks, states, bid);
        return states[bid], true;
      }
      if b.parent != cs.id {
        if b.parent !in states {
          return cs, false;
        }
        cs := states[b.parent];
      }
      if b.timestamp > MaxFuture(rules, cs, now) || !rules.orphan(cs, b) {
        return cs, false;
      }
      AddKeeps(rules, genesis, blocks, states, b);
      cs := ApplyHeader(rules, cs, b);
      states := states[bid := cs];
      blocks := blocks[bid := Stored(b, false)];
      ok := true;
    }

    /** AddBlocks: either the tip stays exactly as it was, or the new tip is the last block and has more work
        than the old one by over a fifth of its difficulty. */
    method AddBlocks(bs: seq<Block>, now: int) returns (r: Outcome)
      requires Valid()
      modifies this`blocks, this`states, this`tipState
      ensures Valid() && Keeps(old(blocks), old(states), blocks, states)
      ensures r != Reorged ==> tipState == old(tipState)
      ensures var t := TakeAllIn(rules, Intake(old(blocks), old(states), old(tipState)), bs, now);
              if t.None? then r == Failed
              else
                && Common(old(tipState.id), t.value.cs.id) in t.value.states
                && r == Decision(t.value.cs, old(tipState),
                                 Advances(t.value.blocks, t.value.states, old(tipState.id), t.value.cs.id))
                && (r == Reorged ==> tipState.id == t.value.cs.id && Heavier(tipState, old(tipState)))
    {
      hide StoreOk, TakeIn, Advance, Common, Ascent, Decision, Heavier;
      KeepsSame(rules, genesis, blocks, states);
      var cs := tipState;
      ghost var t0 := Intake(blocks, states, tipState);
      for i := 0 to |bs|
        invariant Valid() && Keeps(old(blocks), old(states), blocks, states) && tipState == old(tipState)
        invariant cs.id in blocks && states[cs.id] == cs
        invariant TakeAllIn(rules, t0, bs[..i], now) == Some(Intake(blocks, states, cs))
      {
        ghost var b1, s1 := blocks, states;
        TakeNext(rules, t0, bs, now, i, Intake(blocks, states, cs));
        var ok;
        cs, ok := AddBlock(cs, bs[i], now);
        KeepsTransitive(old(blocks), old(states), b1, s1, blocks, states);
        if !ok {
          TakeStops(rules, t0, bs, now, i + 1);
          return Failed;
        }
      }
      assert bs[..|bs|] == bs;
      ghost var b1, s1 := blocks, states;
      r := Switch(cs);
      KeepsTransitive(old(blocks), old(states), b1, s1, blocks, states);
    }
  }
}
