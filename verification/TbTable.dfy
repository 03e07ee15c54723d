/**
  The translation-block cache as the emulator keeps it: chains linked through the blocks, relinked
  in place by a lookup.
 */
module TbTable {
  import opened Base
  import opened TbCache

  class TranslationBlock {
    const tb: Tb
    var physHashNext: TranslationBlock?

    constructor (tb: Tb)
      ensures this.tb == tb
    {
      this.tb := tb;
    }
  }

  type Link = TranslationBlock?

  /** The element at `i`; null past the end. */
  function At(c: seq<TranslationBlock>, i: nat): Link {
    if i < |c| then c[i] else null
  }

  /** `c` is the chain that starts at `head`. */
  ghost predicate IsChain(head: Link, c: seq<TranslationBlock>)
    reads c
  {
    && head == At(c, 0)
    && forall i {:trigger c[i].physHashNext} :: 0 <= i < |c| ==> c[i].physHashNext == At(c, i + 1)
  }

  ghost predicate Distinct(c: seq<TranslationBlock>) {
    forall i, j :: 0 <= i < j < |c| ==> c[i] != c[j]
  }

  ghost function Blocks(c: seq<TranslationBlock>): seq<Tb> {
    seq(|c|, i requires 0 <= i < |c| => c[i].tb)
  }

  /**
    Takes the block at `i` out of its chain and puts it in front: `before` is its predecessor, null
    when it is the head.
   */
  method Relink(head: Link, before: Link, block: TranslationBlock, ghost c: seq<TranslationBlock>, ghost i: nat)
      returns (newHead: Link)
    requires IsChain(head, c) && Distinct(c)
    requires i < |c| && block == c[i] && before == if i == 0 then null else c[i - 1]
    modifies block`physHashNext, (if before == null then {} else {before})`physHashNext
    ensures IsChain(newHead, MoveToFront(c, i))
  {
    newHead := head;
    if before == null {
      newHead := block.physHashNext;
    } else {
      before.physHashNext := block.physHashNext;
    }
    block.physHashNext := newHead;
    newHead := block;
  }

  ghost function CachedBlocks(links: seq<Link>): seq<Option<Tb>> {
    seq(|links|, x requires 0 <= x < |links| => if links[x] == null then None else Some(links[x].tb))
  }

  ghost function AllBlocks(chains: seq<seq<TranslationBlock>>): seq<seq<Tb>> {
    seq(|chains|, h requires 0 <= h < |chains| => Blocks(chains[h]))
  }

  lemma AllBlocksUpdate(chains: seq<seq<TranslationBlock>>, h: nat, c: seq<TranslationBlock>)
    requires h < |chains|
    ensures AllBlocks(chains[h := c]) == AllBlocks(chains)[h := Blocks(c)]
  {}

  lemma BlocksCons(b: TranslationBlock, c: seq<TranslationBlock>)
    ensures Blocks([b] + c) == [b.tb] + Blocks(c)
  {}

  lemma BlocksMove(c: seq<TranslationBlock>, i: nat)
    requires i < |c|
    ensures Blocks(MoveToFront(c, i)) == MoveToFront(Blocks(c), i)
  {}

  ghost function Fronted(chains: seq<seq<Tb>>, h: nat, i: nat): seq<seq<Tb>>
    requires h < |chains| && i < |chains[h]|
  {
    chains[h := MoveToFront(chains[h], i)]
  }

  lemma FrontedFirst(chains: seq<seq<Tb>>, h: nat)
    requires h < |chains| && 0 < |chains[h]|
    ensures Fronted(chains, h, 0) == chains
  {
    assert MoveToFront(chains[h], 0) == chains[h];
  }

  lemma ScanMisses(m: Machine, s: State, k: Key)
    requires Sized(m, s) && Scan(m, s.chains[Bucket(m, k)], k) == |s.chains[Bucket(m, k)]|
    ensures forall j :: 0 <= j < |s.chains[Bucket(m, k)]| ==> !Matches(m, s.chains[Bucket(m, k)][j], k)
  {}

  lemma NoBlocks()
    ensures Blocks([]) == []
  {}

  lemma BlocksSnoc(c: seq<TranslationBlock>, b: TranslationBlock)
    ensures Blocks(c + [b]) == Blocks(c) + [b.tb]
  {}

  /** Blocks of one chain are different objects, and each block is in the chain it belongs in. */
  ghost predicate Apart(chains: seq<seq<TranslationBlock>>) {
    && (forall h :: 0 <= h < |chains| ==> Distinct(chains[h]))
    && (forall h, i :: 0 <= h < |chains| && 0 <= i < |chains[h]| ==> Home(chains[h][i].tb) == h)
  }

  lemma ChainsApart(m: Machine, s: State, chains: seq<seq<TranslationBlock>>)
    requires Invariant(m, s) && s.chains == AllBlocks(chains)
    ensures Apart(chains)
  {
    forall h | 0 <= h < |chains|
      ensures Distinct(chains[h]) && forall i :: 0 <= i < |chains[h]| ==> Home(chains[h][i].tb) == h
    {
      var c := chains[h];
      assert ChainOk(m, s.chains[h], h, s.made);
      assert forall i :: 0 <= i < |c| ==> s.chains[h][i] == c[i].tb;
      forall i, j | 0 <= i < j < |c|
        ensures c[i] != c[j]
      {
        assert s.chains[h][i].code != s.chains[h][j].code;
      }
    }
  }

  class TbCaches {
    const m: Machine
    const physHash: array<Link>  // tb_phys_hash
    const jmpCache: array<Link>  // tb_jmp_cache
    var made: nat
    ghost var chains: seq<seq<TranslationBlock>>
    ghost var repr: set<TranslationBlock>

    ghost predicate Linked()
      reads this`chains, this`repr, physHash, repr
    {
      && |chains| == physHash.Length == PHYS_HASH_SIZE
      && (forall h, i :: 0 <= h < |chains| && 0 <= i < |chains[h]| ==> chains[h][i] in repr)
      && forall h :: 0 <= h < |chains| ==> IsChain(physHash[h], chains[h])
    }

    ghost function Value(): State
      reads this`chains, this`made, jmpCache
    {
      State(AllBlocks(chains), CachedBlocks(jmpCache[..]), made)
    }

    ghost predicate Valid()
      reads this, physHash, jmpCache, repr
    {
      m.Valid() && physHash != jmpCache && jmpCache.Length == JMP_CACHE_SIZE && Linked() && Invariant(m, Value())
    }

    /** tb_flush */
    method Flush()
      requires m.Valid() && physHash != jmpCache && jmpCache.Length == JMP_CACHE_SIZE && Linked()
      modifies this`chains, physHash, jmpCache
      ensures Linked() && Value() == Flushed(old(Value()))
    {
      forall h | 0 <= h < physHash.Length {
        physHash[h] := null;
      }
      forall x | 0 <= x < jmpCache.Length {
        jmpCache[x] := null;
      }
      chains := seq(|chains|, _ => []);
    }

    /** tb_link_page: puts a new block at the head of its chain. */
    method LinkPage(block: TranslationBlock, h: nat)
      requires Linked() && block !in repr && h < PHYS_HASH_SIZE
      modifies this`chains, this`repr, physHash, block
      ensures Linked() && repr == old(repr) + {block}
      ensures chains == old(chains)[h := [block] + old(chains)[h]]
    {
      block.physHashNext := physHash[h];
      physHash[h] := block;
      chains := chains[h := [block] + chains[h]];
      repr := repr + {block};
    }

    /** tb_gen_code */
    method Translate(k: Key) returns (block: TranslationBlock)
      requires Valid()
      modifies this`chains, this`repr, this`made, physHash, jmpCache
      ensures Linked() && Value() == GenCode(m, old(Value()), k) && block.tb == NewBlock(m, k, old(made))
      ensures fresh(block) && repr == old(repr) + {block}
      ensures chains[Bucket(m, k)] == [block] + if m.full(old(made)) then [] else old(chains)[Bucket(m, k)]
    {
      if m.full(made) {
        Flush();
      }
      block := new TranslationBlock(NewBlock(m, k, made));
      ghost var h := Bucket(m, k);
      AllBlocksUpdate(chains, h, [block] + chains[h]);
      BlocksCons(block, chains[h]);
      LinkPage(block, PhysHash(m.phys(k.pc)));
      made := made + 1;
    }

    /** The relinking after a hit, or after a translation into a chain that was empty. */
    method Front(h: nat, before: Link, block: TranslationBlock, ghost i: nat)
      requires physHash != jmpCache && Linked() && Apart(chains)
      requires h < PHYS_HASH_SIZE && i < |chains[h]| && block == chains[h][i]
      requires before == if i == 0 then null else chains[h][i - 1]
      modifies this`chains, physHash, repr`physHashNext
      ensures Linked() && Value() == old(Value()).(chains := Fronted(old(Value()).chains, h, i))
    {
      hide Home;
      ghost var c, others := chains[h], chains;
      BlocksMove(c, i);
      AllBlocksUpdate(chains, h, MoveToFront(c, i));
      var head := Relink(physHash[h], before, block, c, i);
      assert forall g :: 0 <= g < |others| && g != h ==> IsChain(physHash[g], others[g]);
      physHash[h] := head;
      chains := chains[h := MoveToFront(c, i)];
    }

    /** The loop of tb_find_slow: the first block that matches, and the one before it. */
    method Search(k: Key, h: nat) returns (before: Link, at: Link, ghost i: nat)
      requires Linked() && h < PHYS_HASH_SIZE
      ensures i == Scan(m, Blocks(chains[h]), k)
      ensures at == At(chains[h], i) && before == if i == 0 then null else chains[h][i - 1]
    {
      ghost var c := chains[h];
      i := 0;
      before, at := null, physHash[h];
      while at != null && !Matches(m, at.tb, k)
        invariant i <= |c| && at == At(c, i) && before == if i == 0 then null else c[i - 1]
        invariant forall j :: 0 <= j < i ==> !Matches(m, c[j].tb, k)
        decreases |c| - i
      {
        before, at, i := at, at.physHashNext, i + 1;
      }
      assert forall j :: 0 <= j < |c| ==> Blocks(c)[j] == c[j].tb;
    }

    /** The caches before anything is translated. */
    constructor (m: Machine)
      requires m.Valid()
      ensures this.m == m && Valid() && Value() == Empty()
      ensures fresh(physHash) && fresh(jmpCache) && fresh(repr)
    {
      this.m := m;
      physHash := new Link[PHYS_HASH_SIZE](_ => null);
      jmpCache := new Link[JMP_CACHE_SIZE](_ => null);
      made := 0;
      chains := seq(PHYS_HASH_SIZE, _ => []);
      repr := {};
      new;
      EmptyInvariant(m);
      assert Value() == Empty();
    }

    method Remember(pc: int, block: TranslationBlock)
      requires m.Valid() && physHash != jmpCache && jmpCache.Length == JMP_CACHE_SIZE && Linked()
      requires block.tb.key.pc == pc
      modifies jmpCache
      ensures Linked() && Value() == Cache(m, old(Value()), block.tb)
    {
      jmpCache[m.jmpHash(pc)] := block;
    }

    /** tb_find_slow from the end of its loop to the relinking. */
    method Place(k: Key, h: nat, before: Link, at: Link, ghost i: nat) returns (block: TranslationBlock)
      requires Valid() && h == Bucket(m, k)
      requires i == Scan(m, Blocks(chains[h]), k)
      requires at == At(chains[h], i) && before == if i == 0 then null else chains[h][i - 1]
      modifies this`chains, this`repr, this`made, physHash, jmpCache, repr`physHashNext
      ensures Linked() && fresh(repr - old(repr))
      ensures (Value(), block.tb) == Obtain(m, old(Value()), k)
    {
      hide Invariant, GenCode, NewBlock, Matches, Apart, Home;
      assert before != null ==> before.physHashNext == at;
      if at != null {
        block := at;
      } else {
        ScanMisses(m, Value(), k);
        GenKeeps(m, Value(), k);
        block := Translate(k);
      }
      ChainsApart(m, Value(), chains);
      var link := if before == null then physHash[h] else before.physHashNext;
      if link != null {
        if at == null {
          FrontedFirst(Value().chains, h);
        }
        Front(h, before, block, i);
      }
    }

    /** tb_find_slow */
    method LookupSlow(k: Key) returns (block: TranslationBlock)
      requires Valid()
      modifies this, physHash, jmpCache, repr`physHashNext
      ensures Valid() && fresh(repr - old(repr))
      ensures (Value(), block.tb) == FindSlow(m, old(Value()), k)
    {
      hide Invariant, Matches, Obtain, Linked;
      SlowKeeps(m, Value(), k);
      var h := PhysHash(m.phys(k.pc));
      var before, at, i := Search(k, h);
      block := Place(k, h, before, at, i);
      Remember(k.pc, block);
    }

    /** tb_find_fast */
    method LookupFast(k: Key) returns (block: TranslationBlock)
      requires Valid()
      modifies this, physHash, jmpCache, repr`physHashNext
      ensures Valid() && fresh(repr - old(repr))
      ensures (Value(), block.tb) == FindFast(m, old(Value()), k)
    {
      hide Invariant, FindSlow, Linked;
      var cached := jmpCache[m.jmpHash(k.pc)];
      if cached == null || cached.tb.key != k {
        block := LookupSlow(k);
      } else {
        block := cached;
      }
    }

    /** A run of lookups by tb_find_fast returns what the slow path alone would return. */
    method LookupAll(keys: seq<Key>) returns (blocks: seq<TranslationBlock>)
      requires Valid()
      modifies this, physHash, jmpCache, repr`physHashNext
      ensures Valid() && fresh(repr - old(repr))
      ensures Blocks(blocks) == Run(m, old(Value()), keys, false).1
      ensures SameBlocks(Value(), Run(m, old(Value()), keys, false).0)
    {
      hide Invariant, FindSlow, FindFast, Linked, SameBlocks, Run, Blocks;
      blocks := [];
      NoBlocks();
      assert keys[0..] == keys;
      ghost var s := Value();
      for n := 0 to |keys|
        invariant Valid() && fresh(repr - old(repr))
        invariant Blocks(blocks) + Run(m, Value(), keys[n..], true).1 == Run(m, s, keys, true).1
        invariant Run(m, Value(), keys[n..], true).0 == Run(m, s, keys, true).0
      {
        RunStep(m, Value(), keys[n..]);
        assert keys[n..][1..] == keys[n + 1..];
        var block := LookupFast(keys[n]);
        BlocksSnoc(blocks, block);
        blocks := blocks + [block];
      }
      RunNothing(m, Value());
      assert keys[|keys|..] == [];
      SameAsItself(s);
      FastAgreesWithSlow(m, s, s, keys);
    }
  }
}
