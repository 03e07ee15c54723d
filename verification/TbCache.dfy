/**
  The translation-block cache, on values: the chains of the physical hash table, the virtual-pc
  cache in front of them, and what a lookup does to both.
 */
module TbCache {
  import opened Base

  const PAGE: nat := 4096
  const PHYS_HASH_SIZE: nat := 32768
  const JMP_CACHE_SIZE: nat := 4096
  const NO_PAGE: int := -1

  datatype Key = Key(pc: int, csBase: int, flags: int)

  /** A translated block; `code` tells one translation from every other. */
  datatype Tb = Tb(key: Key, page0: int, page1: int, size: nat, code: nat)

  /**
    What lookups depend on: the page mapping, the hash of the virtual-pc cache, how long the code
    translated for a key is, and which translations find the code buffer full.
   */
  datatype Machine = Machine(phys: int -> nat, jmpHash: int -> nat, size: Key -> nat, full: nat -> bool) {
    ghost predicate Valid() {
      && (forall a: int :: phys(a) % PAGE == a % PAGE)
      && (forall pc: int :: jmpHash(pc) < JMP_CACHE_SIZE)
      && (forall k: Key :: 1 <= size(k) <= PAGE)
    }
  }

  datatype State = State(chains: seq<seq<Tb>>, jmpCache: seq<Option<Tb>>, made: nat)

  function PageOf(a: int): int { a - a % PAGE }

  function PhysHash(physPc: int): (h: nat)
    ensures h < PHYS_HASH_SIZE
  {
    (physPc / 4) % PHYS_HASH_SIZE
  }

  function Bucket(m: Machine, k: Key): nat { PhysHash(m.phys(k.pc)) }

  /** The bucket a block belongs in, from the block alone. */
  function Home(tb: Tb): nat { PhysHash(tb.page0 + tb.key.pc % PAGE) }

  /** The comparison tb_find_slow makes. */
  predicate Matches(m: Machine, tb: Tb, k: Key) {
    && tb.key == k
    && tb.page0 == PageOf(m.phys(k.pc))
    && (tb.page1 == NO_PAGE || tb.page1 == m.phys(PageOf(k.pc) + PAGE))
  }

  /** The position of the first match in a chain; its length if there is none. */
  function Scan(m: Machine, chain: seq<Tb>, k: Key): (i: nat)
    ensures i <= |chain|
    ensures i < |chain| ==> Matches(m, chain[i], k)
    ensures forall j :: 0 <= j < i ==> !Matches(m, chain[j], k)
  {
    if chain == [] || Matches(m, chain[0], k) then 0 else 1 + Scan(m, chain[1..], k)
  }

  function MoveToFront<T>(c: seq<T>, i: nat): (r: seq<T>)
    requires i < |c|
    ensures |r| == |c|
    ensures forall j :: 0 <= j < |c| ==> r[j] == if j == 0 then c[i] else if j <= i then c[j - 1] else c[j]
  {
    [c[i]] + c[..i] + c[i + 1..]
  }

  lemma MoveToFrontPermutes<T>(c: seq<T>, i: nat)
    requires i < |c|
    ensures multiset(MoveToFront(c, i)) == multiset(c)
  {
    assert c == c[..i] + [c[i]] + c[i + 1..];
  }

  /** The block that tb_gen_code makes. */
  function NewBlock(m: Machine, k: Key, code: nat): Tb {
    var last := PageOf(k.pc + m.size(k) - 1);
    Tb(k, PageOf(m.phys(k.pc)), if last != PageOf(k.pc) then m.phys(last) else NO_PAGE,
       m.size(k), code)
  }

  function Flushed(s: State): State {
    State(seq(|s.chains|, _ => []), seq(|s.jmpCache|, _ => None), s.made)
  }

  /** tb_gen_code: the new block goes to the head of its chain, after a flush if the buffer is full. */
  function GenCode(m: Machine, s: State, k: Key): State
    requires |s.chains| == PHYS_HASH_SIZE
  {
    var t := if m.full(s.made) then Flushed(s) else s;
    var h := Bucket(m, k);
    t.(chains := t.chains[h := [NewBlock(m, k, s.made)] + t.chains[h]], made := s.made + 1)
  }

  predicate Sized(m: Machine, s: State) {
    |s.chains| == PHYS_HASH_SIZE && |s.jmpCache| == JMP_CACHE_SIZE
  }

  function Cache(m: Machine, s: State, tb: Tb): State
    requires m.Valid() && Sized(m, s)
  {
    s.(jmpCache := s.jmpCache[m.jmpHash(tb.key.pc) := Some(tb)])
  }

  /** tb_find_slow up to the entry it makes in the virtual-pc cache. */
  function Obtain(m: Machine, s: State, k: Key): (State, Tb)
    requires m.Valid() && Sized(m, s)
  {
    var h := Bucket(m, k);
    var i := Scan(m, s.chains[h], k);
    if i < |s.chains[h]| then
      (s.(chains := s.chains[h := MoveToFront(s.chains[h], i)]), s.chains[h][i])
    else
      (GenCode(m, s, k), NewBlock(m, k, s.made))
  }

  /** tb_find_slow */
  function FindSlow(m: Machine, s: State, k: Key): (State, Tb)
    requires m.Valid() && Sized(m, s)
  {
    var (t, tb) := Obtain(m, s, k);
    (Cache(m, t, tb), tb)
  }

  /** tb_find_fast */
  function FindFast(m: Machine, s: State, k: Key): (State, Tb)
    requires m.Valid() && Sized(m, s)
  {
    var cached := s.jmpCache[m.jmpHash(k.pc)];
    if cached.Some? && cached.value.key == k then (s, cached.value) else FindSlow(m, s, k)
  }

  // ------------------------------------------------------------------ invariant

  /** Translated under the present page mapping. */
  predicate Current(m: Machine, tb: Tb) { Matches(m, tb, tb.key) }

  /** A second page is recorded exactly when the code reaches into it. */
  predicate Spanned(tb: Tb) {
    1 <= tb.size <= PAGE && (tb.page1 == NO_PAGE <==> PageOf(tb.key.pc + tb.size - 1) == PageOf(tb.key.pc))
  }

  ghost predicate ChainOk(m: Machine, chain: seq<Tb>, h: nat, made: nat) {
    && (forall i :: 0 <= i < |chain| ==> Home(chain[i]) == h && chain[i].code < made && Spanned(chain[i]))
    && (forall i, j :: 0 <= i < j < |chain| ==> chain[i].code != chain[j].code)
    && (forall i, j :: 0 <= i < j < |chain| && Current(m, chain[i]) && Current(m, chain[j]) ==>
                         chain[i].key != chain[j].key)
  }

  ghost predicate CachedOk(m: Machine, s: State, tb: Tb)
    requires Sized(m, s)
  {
    Current(m, tb) && tb in s.chains[Bucket(m, tb.key)]
  }

  /**
    Every block is in the chain it belongs in, once; the present mapping's blocks have different
    keys; what the virtual-pc cache points at is such a block and is still in its chain.
   */
  ghost predicate Invariant(m: Machine, s: State) {
    && Sized(m, s)
    && (forall h :: 0 <= h < |s.chains| ==> ChainOk(m, s.chains[h], h, s.made))
    && (forall x :: 0 <= x < |s.jmpCache| && s.jmpCache[x].Some? ==> CachedOk(m, s, s.jmpCache[x].value))
  }

  function Empty(): State {
    State(seq(PHYS_HASH_SIZE, _ => []), seq(JMP_CACHE_SIZE, _ => None), 0)
  }

  lemma EmptyInvariant(m: Machine)
    ensures Invariant(m, Empty())
  {}

  lemma OneOrTwoPages(a: int, n: nat)
    requires n < PAGE
    ensures PageOf(a + n) == PageOf(a) || PageOf(a + n) == PageOf(a) + PAGE
  {}

  lemma NewBlockMatches(m: Machine, k: Key, code: nat)
    requires m.Valid()
    ensures Matches(m, NewBlock(m, k, code), k)
    ensures Home(NewBlock(m, k, code)) == Bucket(m, k) && Spanned(NewBlock(m, k, code))
  {
    OneOrTwoPages(k.pc, m.size(k) - 1);
    var p: int := m.phys(k.pc);
    assert p % PAGE == k.pc % PAGE;
    assert PageOf(p) + k.pc % PAGE == p;
  }

  lemma MoveKeepsChain(m: Machine, c: seq<Tb>, i: nat, h: nat, made: nat)
    requires ChainOk(m, c, h, made) && i < |c|
    ensures ChainOk(m, MoveToFront(c, i), h, made)
  {
    hide Current, Spanned, Home;
  }

  lemma GenKeepsChain(m: Machine, c: seq<Tb>, k: Key, h: nat, made: nat)
    requires m.Valid() && ChainOk(m, c, h, made) && h == Bucket(m, k)
    requires forall j :: 0 <= j < |c| ==> !Matches(m, c[j], k)
    ensures ChainOk(m, [NewBlock(m, k, made)] + c, h, made + 1)
  {
    NewBlockMatches(m, k, made);
  }

  lemma MoveKeepsMembers<T>(c: seq<T>, i: nat, x: T)
    requires i < |c|
    ensures x in MoveToFront(c, i) <==> x in c
  {
    MoveToFrontPermutes(c, i);
    assert x in multiset(MoveToFront(c, i)) <==> x in multiset(c);
  }

  /** Putting a chain in place of another that has the same members, or more, keeps the invariant. */
  lemma ChainReplaced(m: Machine, s: State, h: nat, c: seq<Tb>, made: nat)
    requires Invariant(m, s) && h < PHYS_HASH_SIZE && made >= s.made
    requires ChainOk(m, c, h, made) && forall x :: x in s.chains[h] ==> x in c
    ensures Invariant(m, s.(chains := s.chains[h := c], made := made))
  {
    var t := s.(chains := s.chains[h := c], made := made);
    forall x | 0 <= x < |t.jmpCache| && t.jmpCache[x].Some?
      ensures CachedOk(m, t, t.jmpCache[x].value)
    {
      assert CachedOk(m, s, s.jmpCache[x].value);
    }
  }

  lemma FlushKeeps(m: Machine, s: State)
    requires Invariant(m, s)
    ensures Invariant(m, Flushed(s))
  {}

  lemma CacheKeeps(m: Machine, s: State, tb: Tb)
    requires m.Valid() && Invariant(m, s) && CachedOk(m, s, tb)
    ensures Invariant(m, Cache(m, s, tb))
  {
    var t := Cache(m, s, tb);
    forall x | 0 <= x < |t.jmpCache| && t.jmpCache[x].Some?
      ensures CachedOk(m, t, t.jmpCache[x].value)
    {
      if x != m.jmpHash(tb.key.pc) {
        assert CachedOk(m, s, s.jmpCache[x].value);
      }
    }
  }

  lemma GenKeeps(m: Machine, s: State, k: Key)
    requires m.Valid() && Invariant(m, s)
    requires forall j :: 0 <= j < |s.chains[Bucket(m, k)]| ==> !Matches(m, s.chains[Bucket(m, k)][j], k)
    ensures Invariant(m, GenCode(m, s, k))
    ensures CachedOk(m, GenCode(m, s, k), NewBlock(m, k, s.made))
  {
    var t := if m.full(s.made) then Flushed(s) else s;
    FlushKeeps(m, s);
    var h := Bucket(m, k);
    GenKeepsChain(m, t.chains[h], k, h, s.made);
    ChainReplaced(m, t, h, [NewBlock(m, k, s.made)] + t.chains[h], s.made + 1);
    NewBlockMatches(m, k, s.made);
  }

  /**
    tb_find_slow keeps the invariant and returns a block that matches the key, in its chain: the one
    a plain scan finds if there is one, else a new translation.
   */
  lemma SlowKeeps(m: Machine, s: State, k: Key)
    requires m.Valid() && Invariant(m, s)
    ensures Invariant(m, FindSlow(m, s, k).0)
    ensures Matches(m, FindSlow(m, s, k).1, k)
    ensures FindSlow(m, s, k).1 in FindSlow(m, s, k).0.chains[Bucket(m, k)]
  {
    var h := Bucket(m, k);
    var c := s.chains[h];
    var i := Scan(m, c, k);
    if i < |c| {
      MoveKeepsChain(m, c, i, h, s.made);
      forall x | x in c ensures x in MoveToFront(c, i) {
        MoveKeepsMembers(c, i, x);
      }
      ChainReplaced(m, s, h, MoveToFront(c, i), s.made);
      var t := s.(chains := s.chains[h := MoveToFront(c, i)]);
      assert t == s.(chains := s.chains[h := MoveToFront(c, i)], made := s.made);
      CacheKeeps(m, t, c[i]);
    } else {
      GenKeeps(m, s, k);
      NewBlockMatches(m, k, s.made);
      CacheKeeps(m, GenCode(m, s, k), NewBlock(m, k, s.made));
    }
  }

  lemma FastKeeps(m: Machine, s: State, k: Key)
    requires m.Valid() && Invariant(m, s)
    ensures Invariant(m, FindFast(m, s, k).0)
  {
    SlowKeeps(m, s, k);
  }

  /** The block that matches a key is unique in the chain, so the scan's order does not matter. */
  lemma MatchIsUnique(m: Machine, c: seq<Tb>, h: nat, made: nat, k: Key, a: Tb, b: Tb)
    requires ChainOk(m, c, h, made)
    requires a in c && b in c && Matches(m, a, k) && Matches(m, b, k)
    ensures a == b
  {
    var i :| 0 <= i < |c| && c[i] == a;
    var j :| 0 <= j < |c| && c[j] == b;
    assert Current(m, c[i]) && Current(m, c[j]);
  }

  // ------------------------------------------------------------------ fast against slow

  /** The same blocks in every chain, in any order. */
  ghost predicate SameBlocks(s: State, t: State) {
    && s.made == t.made && |s.chains| == |t.chains|
    && forall h :: 0 <= h < |s.chains| ==> multiset(s.chains[h]) == multiset(t.chains[h])
  }

  lemma SameMembers(c: seq<Tb>, d: seq<Tb>, x: Tb)
    requires multiset(c) == multiset(d)
    ensures x in c <==> x in d
  {
    assert x in multiset(c) <==> x in multiset(d);
  }

  /** In chains of the same blocks a scan finds the same block, or finds none in both. */
  lemma SameScan(m: Machine, c: seq<Tb>, d: seq<Tb>, h: nat, made: nat, k: Key)
    requires ChainOk(m, c, h, made) && multiset(c) == multiset(d)
    ensures Scan(m, c, k) < |c| <==> Scan(m, d, k) < |d|
    ensures Scan(m, c, k) < |c| ==> c[Scan(m, c, k)] == d[Scan(m, d, k)]
  {
    var i, j := Scan(m, c, k), Scan(m, d, k);
    if i < |c| {
      SameMembers(c, d, c[i]);
      assert c[i] in d;
    }
    if j < |d| {
      SameMembers(c, d, d[j]);
      assert d[j] in c;
      if i < |c| {
        MatchIsUnique(m, c, h, made, k, c[i], d[j]);
      }
    }
  }

  lemma SlowSame(m: Machine, s: State, t: State, k: Key)
    requires m.Valid() && Invariant(m, s) && Invariant(m, t) && SameBlocks(s, t)
    ensures FindSlow(m, s, k).1 == FindSlow(m, t, k).1
    ensures SameBlocks(FindSlow(m, s, k).0, FindSlow(m, t, k).0)
  {
    var h := Bucket(m, k);
    var c, d := s.chains[h], t.chains[h];
    SameScan(m, c, d, h, s.made, k);
    if Scan(m, c, k) < |c| {
      MoveToFrontPermutes(c, Scan(m, c, k));
      MoveToFrontPermutes(d, Scan(m, d, k));
    }
  }

  lemma SlowHitKeepsBlocks(m: Machine, s: State, k: Key)
    requires m.Valid() && Invariant(m, s)
    requires Scan(m, s.chains[Bucket(m, k)], k) < |s.chains[Bucket(m, k)]|
    ensures SameBlocks(s, FindSlow(m, s, k).0)
  {
    var c := s.chains[Bucket(m, k)];
    MoveToFrontPermutes(c, Scan(m, c, k));
  }

  /** A hit in the virtual-pc cache is what the slow path would return. */
  lemma HitIsSlowResult(m: Machine, s: State, k: Key)
    requires m.Valid() && Invariant(m, s)
    requires s.jmpCache[m.jmpHash(k.pc)].Some? && s.jmpCache[m.jmpHash(k.pc)].value.key == k
    ensures FindSlow(m, s, k).1 == s.jmpCache[m.jmpHash(k.pc)].value
    ensures SameBlocks(s, FindSlow(m, s, k).0)
  {
    var h, tb := Bucket(m, k), s.jmpCache[m.jmpHash(k.pc)].value;
    var c := s.chains[h];
    assert CachedOk(m, s, tb);
    var i := Scan(m, c, k);
    assert i < |c| by {
      var j :| 0 <= j < |c| && c[j] == tb;
      assert Matches(m, c[j], k);
    }
    MatchIsUnique(m, c, h, s.made, k, tb, c[i]);
    SlowHitKeepsBlocks(m, s, k);
  }

  lemma StepAgrees(m: Machine, s: State, t: State, k: Key)
    requires m.Valid() && Invariant(m, s) && Invariant(m, t) && SameBlocks(s, t)
    ensures FindFast(m, s, k).1 == FindSlow(m, t, k).1
    ensures SameBlocks(FindFast(m, s, k).0, FindSlow(m, t, k).0)
  {
    SlowSame(m, s, t, k);
    var cached := s.jmpCache[m.jmpHash(k.pc)];
    if cached.Some? && cached.value.key == k {
      HitIsSlowResult(m, s, k);
    }
  }

  /** The blocks that a run of lookups returns, all by tb_find_fast or all by tb_find_slow. */
  ghost function Run(m: Machine, s: State, keys: seq<Key>, fast: bool): (r: (State, seq<Tb>))
    requires m.Valid() && Invariant(m, s)
    ensures Invariant(m, r.0) && |r.1| == |keys|
    decreases |keys|
  {
    if keys == [] then (s, []) else
      SlowKeeps(m, s, keys[0]); FastKeeps(m, s, keys[0]);
      var (t, tb) := if fast then FindFast(m, s, keys[0]) else FindSlow(m, s, keys[0]);
      var (u, rest) := Run(m, t, keys[1..], fast);
      (u, [tb] + rest)
  }

  lemma RunNothing(m: Machine, s: State)
    requires m.Valid() && Invariant(m, s)
    ensures Run(m, s, [], true) == (s, [])
  {}

  lemma RunStep(m: Machine, s: State, keys: seq<Key>)
    requires m.Valid() && Invariant(m, s) && keys != []
    ensures Invariant(m, FindFast(m, s, keys[0]).0)
    ensures Run(m, s, keys, true).0 == Run(m, FindFast(m, s, keys[0]).0, keys[1..], true).0
    ensures Run(m, s, keys, true).1 ==
              [FindFast(m, s, keys[0]).1] + Run(m, FindFast(m, s, keys[0]).0, keys[1..], true).1
  {
    FastKeeps(m, s, keys[0]);
  }

  lemma SameAsItself(s: State)
    ensures SameBlocks(s, s)
  {}

  /**
    Over every sequence of lookups under one page mapping, through flushes of a full code buffer,
    the fast path returns the blocks that the slow path alone would return.
   */
  lemma {:induction false} FastAgreesWithSlow(m: Machine, s: State, t: State, keys: seq<Key>)
    requires m.Valid() && Invariant(m, s) && Invariant(m, t) && SameBlocks(s, t)
    ensures Run(m, s, keys, true).1 == Run(m, t, keys, false).1
    ensures SameBlocks(Run(m, s, keys, true).0, Run(m, t, keys, false).0)
    decreases |keys|
  {
    if keys != [] {
      StepAgrees(m, s, t, keys[0]);
      SlowKeeps(m, t, keys[0]);
      FastKeeps(m, s, keys[0]);
      FastAgreesWithSlow(m, FindFast(m, s, keys[0]).0, FindSlow(m, t, keys[0]).0, keys[1..]);
    }
  }

  // ------------------------------------------------------------------ where the code lies

  /** The mapping takes pages to pages. */
  ghost predicate PageWise(m: Machine) {
    forall a: int :: PageOf(m.phys(a)) == m.phys(PageOf(a))
  }

  lemma SpannedPages(m: Machine, tb: Tb, a: int)
    requires m.Valid() && PageWise(m) && Spanned(tb) && Current(m, tb)
    requires tb.key.pc <= a < tb.key.pc + tb.size
    ensures PageOf(m.phys(a)) == if PageOf(a) == PageOf(tb.key.pc) then tb.page0 else tb.page1
  {
    var p := PageOf(tb.key.pc);
    OneOrTwoPages(tb.key.pc, a - tb.key.pc);
    assert PageOf(m.phys(a)) == m.phys(PageOf(a));
    assert PageOf(m.phys(tb.key.pc)) == m.phys(p);
  }

  /**
    Whichever path finds it, the block is of the key asked for, and each byte of its code lies in the
    physical page that the block records for it.
   */
  lemma FoundCodeInPlace(m: Machine, s: State, k: Key, a: int)
    requires m.Valid() && PageWise(m) && Invariant(m, s)
    ensures var tb := FindFast(m, s, k).1;
            && tb == FindSlow(m, s, k).1 && tb.key == k
            && (k.pc <= a < k.pc + tb.size ==>
                PageOf(m.phys(a)) == if PageOf(a) == PageOf(k.pc) then tb.page0 else tb.page1)
  {
    hide FindFast, FindSlow, PageWise, Spanned;
    SameAsItself(s);
    StepAgrees(m, s, s, k);
    SlowKeeps(m, s, k);
    var t, tb := FindSlow(m, s, k).0, FindSlow(m, s, k).1;
    assert ChainOk(m, t.chains[Bucket(m, k)], Bucket(m, k), t.made);
    if k.pc <= a < k.pc + tb.size {
      SpannedPages(m, tb, a);
    }
  }

  // ------------------------------------------------------------------ a change of mapping

  /** tlb_flush clears the virtual-pc cache. */
  function Cleared(s: State): State {
    s.(jmpCache := seq(|s.jmpCache|, _ => None))
  }

  /** No two blocks of one key fit the mapping. */
  ghost predicate KeysApart(m: Machine, s: State) {
    forall h, i, j :: 0 <= h < |s.chains| && 0 <= i < j < |s.chains[h]| &&
                      Current(m, s.chains[h][i]) && Current(m, s.chains[h][j]) ==>
                      s.chains[h][i].key != s.chains[h][j].key
  }

  /**
    When the page mapping changes and the virtual-pc cache is cleared, the agreement starts anew under
    the new mapping if and only if no two blocks of one key fit it.
   */
  lemma AfterRemap(m: Machine, n: Machine, s: State)
    requires Invariant(m, s)
    ensures Invariant(n, Cleared(s)) <==> KeysApart(n, s)
  {
    var c := Cleared(s);
    if KeysApart(n, s) {
      forall h | 0 <= h < |c.chains|
        ensures ChainOk(n, c.chains[h], h, c.made)
      {
        assert ChainOk(m, s.chains[h], h, s.made);
      }
    } else {
      var h, i, j :| 0 <= h < |s.chains| && 0 <= i < j < |s.chains[h]| && Current(n, s.chains[h][i]) &&
                     Current(n, s.chains[h][j]) && s.chains[h][i].key == s.chains[h][j].key;
      assert !ChainOk(n, c.chains[h], h, c.made);
    }
  }

  lemma AgreesAfterRemap(m: Machine, n: Machine, s: State, keys: seq<Key>)
    requires n.Valid() && Invariant(m, s) && KeysApart(n, s)
    ensures Invariant(n, Cleared(s))
    ensures Run(n, Cleared(s), keys, true).1 == Run(n, Cleared(s), keys, false).1
  {
    hide Invariant;
    AfterRemap(m, n, s);
    SameAsItself(Cleared(s));
    FastAgreesWithSlow(n, Cleared(s), Cleared(s), keys);
  }
}
