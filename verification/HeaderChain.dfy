/**
 The header chain (core/headerchain.go, and `Rollback` of core/blockchain.go): a tree of headers with
 their total difficulties, an index from numbers to the hashes of the canonical chain, and a head.

 A header's hash identifies it.  Databases and caches are maps; the coin that breaks a tie between
 equally heavy chains is a parameter.
 */
module HeaderChain {
  import opened Shared

  type Hash = nat

  datatype Header = Header(hash: Hash, parent: Hash, number: nat, difficulty: nat)

  /** `h` has its own hash, and its parent is there, one number below it, unless it is genesis. */
  ghost predicate Placed(headers: map<Hash, Header>, genesis: Header, h: Hash)
    requires h in headers
  {
    && headers[h].hash == h
    && (h != genesis.hash ==>
          && headers[h].number > 0 && headers[h].parent in headers
          && headers[headers[h].parent].number + 1 == headers[h].number)
  }

  /** `headers` is a tree with root `genesis`. */
  ghost predicate IsTree(headers: map<Hash, Header>, genesis: Header)
  {
    && genesis.hash in headers && headers[genesis.hash] == genesis && genesis.number == 0
    && forall h {:trigger Placed(headers, genesis, h)} :: h in headers ==> Placed(headers, genesis, h)
  }

  /** The sum of the difficulties from genesis to `h`. */
  ghost function TotalDifficulty(headers: map<Hash, Header>, genesis: Header, h: Hash): nat
    requires IsTree(headers, genesis) && h in headers
    decreases headers[h].number
  {
    assert Placed(headers, genesis, h);
    headers[h].difficulty + if h == genesis.hash then 0 else TotalDifficulty(headers, genesis, headers[h].parent)
  }

  /** The ancestor of `h` with number `n`. */
  ghost function Ancestor(headers: map<Hash, Header>, genesis: Header, h: Hash, n: nat): (a: Hash)
    requires IsTree(headers, genesis) && h in headers && n <= headers[h].number
    ensures a in headers && headers[a].number == n
    decreases headers[h].number
  {
    assert Placed(headers, genesis, h);
    if headers[h].number == n then h else Ancestor(headers, genesis, headers[h].parent, n)
  }

  /** The recorded total difficulty of `h` is its parent's plus its own. */
  ghost predicate Added(headers: map<Hash, Header>, td: map<Hash, nat>, genesis: Header, h: Hash)
    requires IsTree(headers, genesis) && h in headers && td.Keys == headers.Keys
  {
    assert Placed(headers, genesis, h);
    td[h] == headers[h].difficulty + if h == genesis.hash then 0 else td[headers[h].parent]
  }

  ghost predicate AddsUp(headers: map<Hash, Header>, td: map<Hash, nat>, genesis: Header)
    requires IsTree(headers, genesis)
  {
    && td.Keys == headers.Keys
    && forall h {:trigger Added(headers, td, genesis, h)} :: h in headers ==> Added(headers, td, genesis, h)
  }

  lemma {:induction false} TdIsSum(headers: map<Hash, Header>, td: map<Hash, nat>, genesis: Header, h: Hash)
    requires IsTree(headers, genesis) && AddsUp(headers, td, genesis) && h in headers
    ensures td[h] == TotalDifficulty(headers, genesis, h)
    decreases headers[h].number
  {
    assert Placed(headers, genesis, h) && Added(headers, td, genesis, h);
    if h != genesis.hash { TdIsSum(headers, td, genesis, headers[h].parent); }
  }

  /** The index is defined on exactly `[0..top]`, each entry has its number, and consecutive ones are linked. */
  ghost predicate IsChain(headers: map<Hash, Header>, canon: map<nat, Hash>, top: nat)
  {
    && (forall i: nat :: i in canon <==> i <= top)
    && (forall i :: i in canon ==> canon[i] in headers && headers[canon[i]].number == i)
    && (forall i, j :: i in canon && j in canon && j == i + 1 ==> headers[canon[j]].parent == canon[i])
  }

  /** The index up to any entry is the way from that entry back to genesis. */
  lemma {:induction false} IndexIsAncestry(headers: map<Hash, Header>, genesis: Header, canon: map<nat, Hash>,
                                           top: nat, n: nat, m: nat)
    requires IsTree(headers, genesis) && IsChain(headers, canon, top) && n <= m <= top
    ensures canon[n] == Ancestor(headers, genesis, canon[m], n)
    decreases m
  {
    if n < m { IndexIsAncestry(headers, genesis, canon, top, n, m - 1); }
  }

  lemma {:induction false} AncestorLinked(headers: map<Hash, Header>, genesis: Header, h: Hash, n: nat)
    requires IsTree(headers, genesis) && h in headers && n < headers[h].number
    ensures headers[Ancestor(headers, genesis, h, n + 1)].parent == Ancestor(headers, genesis, h, n)
    decreases headers[h].number
  {
    assert Placed(headers, genesis, h);
    if n + 1 < headers[h].number { AncestorLinked(headers, genesis, headers[h].parent, n); }
  }

  /** The index holds the ancestors of `h`, and nothing above it. */
  ghost predicate LeadsTo(headers: map<Hash, Header>, genesis: Header, canon: map<nat, Hash>, h: Hash)
    requires IsTree(headers, genesis) && h in headers
  {
    && (forall i: nat :: i in canon <==> i <= headers[h].number)
    && (forall i :: i in canon ==> canon[i] == Ancestor(headers, genesis, h, i))
  }

  lemma LeadsToChain(headers: map<Hash, Header>, genesis: Header, canon: map<nat, Hash>, h: Hash)
    requires IsTree(headers, genesis) && h in headers && LeadsTo(headers, genesis, canon, h)
    ensures IsChain(headers, canon, headers[h].number)
  {
    forall i, j | i in canon && j in canon && j == i + 1
      ensures headers[canon[j]].parent == canon[i]
    {
      AncestorLinked(headers, genesis, h, i);
    }
  }

  /** Adding a header whose parent is there keeps the tree, the sums and any chain in it. */
  lemma Grow(headers: map<Hash, Header>, td: map<Hash, nat>, genesis: Header, canon: map<nat, Hash>, top: nat,
             header: Header)
    requires IsTree(headers, genesis) && AddsUp(headers, td, genesis) && IsChain(headers, canon, top)
    requires header.hash in headers ==> headers[header.hash] == header
    requires header.number > 0 && header.parent in headers && headers[header.parent].number + 1 == header.number
    ensures var headers' := headers[header.hash := header];
            var td' := td[header.hash := header.difficulty + td[header.parent]];
            && IsTree(headers', genesis) && AddsUp(headers', td', genesis) && IsChain(headers', canon, top)
            && (forall h :: h in td ==> td'[h] == td[h])
  {
    var headers' := headers[header.hash := header];
    var td' := td[header.hash := header.difficulty + td[header.parent]];
    assert header.hash in headers ==> Added(headers, td, genesis, header.hash);
    forall h | h in headers'
      ensures Placed(headers', genesis, h)
    {
      if h in headers { assert Placed(headers, genesis, h); }
    }
    forall h | h in headers'
      ensures Added(headers', td', genesis, h)
    {
      if h in headers { assert Placed(headers, genesis, h) && Added(headers, td, genesis, h); }
    }
  }

  /** A header that has just been written becomes the head if its chain is heavier, or on a tie if the coin says so. */
  ghost predicate Wins(td: map<Hash, nat>, h: Hash, head: Hash, coin: bool)
    requires h in td && head in td
  {
    td[h] > td[head] || (td[h] == td[head] && coin)
  }

  /** No recorded difficulty has changed. */
  ghost predicate Kept(td0: map<Hash, nat>, td: map<Hash, nat>) {
    forall h :: h in td0 ==> h in td && td[h] == td0[h]
  }

  /** Exactly the headers of `chain` have been added. */
  ghost predicate Imported(before: map<Hash, Header>, now: map<Hash, Header>, chain: seq<Header>) {
    && (forall h :: h in before ==> h in now && now[h] == before[h])
    && (forall h :: h in now && h !in before ==> now[h].hash == h && now[h] in chain)
    && forall k :: 0 <= k < |chain| ==> chain[k].hash in now && now[chain[k].hash] == chain[k]
  }

  /** The header at `k` is new: it was not recorded, nor is it among those before it. */
  ghost predicate New(before: map<Hash, Header>, chain: seq<Header>, k: nat)
    requires k < |chain|
  {
    chain[k].hash !in before && forall j :: 0 <= j < k ==> chain[j].hash != chain[k].hash
  }

  /**
   After the first `n` headers the head is what it was, or a new header: all later new ones are lighter, or as heavy
   without the coin; all earlier ones, and the head before, are lighter, or as heavy if the coin was for it.
   */
  ghost predicate Elected(before: map<Hash, Header>, td: map<Hash, nat>, head0: Header, head: Header,
                          chain: seq<Header>, coins: seq<bool>, n: nat) {
    && n <= |chain| == |coins| && head0.hash in td && (forall k :: 0 <= k < n ==> chain[k].hash in td)
    && ((head == head0 && Stays(before, td, head0.hash, chain, coins, 0, n))
        || exists j :: 0 <= j < n && Takes(before, td, head0, head, chain, coins, j, n))
  }

  /** No new header from `from` on beats the head. */
  ghost predicate Stays(before: map<Hash, Header>, td: map<Hash, nat>, head: Hash, chain: seq<Header>, coins: seq<bool>,
                        from: nat, n: nat)
    requires n <= |chain| == |coins| && head in td && forall k :: 0 <= k < n ==> chain[k].hash in td
  {
    forall k {:trigger New(before, chain, k)} :: from <= k < n && New(before, chain, k) ==>
      !Wins(td, chain[k].hash, head, coins[k])
  }

  /** The new header at `j` has become the head, and stays it. */
  ghost predicate Takes(before: map<Hash, Header>, td: map<Hash, nat>, head0: Header, head: Header, chain: seq<Header>,
                        coins: seq<bool>, j: nat, n: nat)
    requires j < n <= |chain| == |coins| && head0.hash in td && forall k :: 0 <= k < n ==> chain[k].hash in td
  {
    && head == chain[j] && New(before, chain, j) && Wins(td, head.hash, head0.hash, coins[j])
    && (forall k {:trigger New(before, chain, k)} :: 0 <= k < j && New(before, chain, k) ==>
          Wins(td, head.hash, chain[k].hash, coins[j]))
    && Stays(before, td, head.hash, chain, coins, j + 1, n)
  }

  class HeaderChain {
    const genesis: Header
    var headers: map<Hash, Header>
    var td: map<Hash, nat>
    var canon: map<nat, Hash>
    var current: Header

    /** The highest number in the index. */
    ghost var top: nat

    ghost predicate Valid()
      reads this
    {
      && IsTree(headers, genesis) && AddsUp(headers, td, genesis) && IsChain(headers, canon, top)
      && current.hash in headers && headers[current.hash] == current
      && current.number <= top && canon[current.number] == current.hash
    }

    /** No recorded header is heavier than the head. */
    ghost predicate Heaviest()
      reads this
    {
      current.hash in td && forall h :: h in td ==> td[h] <= td[current.hash]
    }

    /** What holds between two headers of an import, closed. */
    ghost predicate Sound(heaviest: bool, weight: nat)
      reads this
    {
      forall k: int {:trigger Opened(k)} :: Sealed(k) ==>
        Valid() && (heaviest ==> Heaviest()) && td[current.hash] >= weight
    }

    constructor (genesis: Header)
      requires genesis.number == 0
      ensures Valid() && Heaviest() && this.genesis == genesis && headers == map[genesis.hash := genesis]
    {
      this.genesis := genesis;
      headers := map[genesis.hash := genesis];
      td := map[genesis.hash := genesis.difficulty];
      canon := map[0 := genesis.hash];
      current := genesis;
      top := 0;
    }

    /** Delete the index entries above `number`, up to the first gap. */
    method DeleteAbove(number: nat)
      requires forall i: nat :: i in canon <==> i <= top
      modifies this`canon
      ensures forall i: nat :: i in canon <==> i <= top && i <= number
      ensures forall i :: i in canon ==> canon[i] == old(canon)[i]
    {
      var i := number + 1;
      while i in canon
        invariant number < i
        invariant forall j: nat :: j in canon <==> j <= top && (j <= number || i <= j)
        invariant forall j :: j in canon ==> canon[j] == old(canon)[j]
        decreases top + 1 - i
      {
        canon := canon - {i};
        i := i + 1;
      }
    }

    /** Walk back from `hash`, overwriting index entries, until the index agrees. */
    method Reroute(hash: Hash, number: nat)
      requires IsTree(headers, genesis) && IsChain(headers, canon, top)
      requires hash in headers && headers[hash].number == number
      modifies this`canon
      ensures forall i: nat :: i in canon <==> i <= number || i <= top
      ensures forall i :: i in canon ==>
                canon[i] == if i <= number then Ancestor(headers, genesis, hash, i) else old(canon)[i]
    {
      var headHash: Hash, headNumber: nat := hash, number;
      while headNumber !in canon || canon[headNumber] != headHash
        invariant headNumber <= number && headHash == Ancestor(headers, genesis, hash, headNumber)
        invariant forall i: nat :: i in canon <==> i <= top || headNumber < i <= number
        invariant forall i :: i in canon ==>
                    canon[i] == if headNumber < i <= number then Ancestor(headers, genesis, hash, i) else old(canon)[i]
        decreases headNumber
      {
        assert Placed(headers, genesis, headHash) && Placed(headers, genesis, old(canon)[0]);
        canon := canon[headNumber := headHash];
        AncestorLinked(headers, genesis, hash, headNumber - 1);
        headNumber := headers[headHash].number - 1;
        headHash := headers[headHash].parent;
      }
      forall i | i in canon && i <= headNumber
        ensures canon[i] == Ancestor(headers, genesis, hash, i)
      {
        IndexIsAncestry(headers, genesis, old(canon), top, i, headNumber);
        AncestorCompose(headers, genesis, hash, headNumber, i);
      }
    }

    /** Make `header` the head, and route the index to it. */
    method MakeHead(header: Header)
      requires IsTree(headers, genesis) && IsChain(headers, canon, top)
      requires header.hash in headers && headers[header.hash] == header && header.number > 0
      modifies this`canon, this`current, this`top
      ensures LeadsTo(headers, genesis, canon, header.hash) && IsChain(headers, canon, top)
      ensures current == header && top == header.number
    {
      assert Placed(headers, genesis, header.hash);
      DeleteAbove(header.number);
      top := if header.number < top then header.number else top;
      Reroute(header.parent, header.number - 1);
      canon := canon[header.number := header.hash];
      current := header;
      top := header.number;
      assert forall i: nat :: i < header.number ==>
               Ancestor(headers, genesis, header.hash, i) == Ancestor(headers, genesis, header.parent, i);
      LeadsToChain(headers, genesis, canon, header.hash);
    }

    /**
     WriteHeader: record a header whose parent is known; if that makes its chain the heaviest (or, on a
     tie, if the coin says so), make it the head and route the index to it.
     */
    method WriteHeader(header: Header, coin: bool) returns (status: WriteStatus)
      requires Valid() && (header.hash in headers ==> headers[header.hash] == header)
      modifies this
      ensures Valid()
      ensures status.NonStat? <==> !Attaches(header, old(headers))
      ensures headers == if status.NonStat? then old(headers) else old(headers)[header.hash := header]
      ensures forall h :: h in old(headers) ==> td[h] == old(td)[h]
      ensures !status.NonStat? ==>
                (status.CanonStat? <==>
                 td[header.hash] > td[old(current).hash] || (td[header.hash] == td[old(current).hash] && coin))
      ensures status.CanonStat? ==>
                current == header && top == header.number && LeadsTo(headers, genesis, canon, header.hash)
      ensures !status.CanonStat? ==> current == old(current) && canon == old(canon) && top == old(top)
      ensures status.NonStat? ==> td == old(td)
      ensures td[current.hash] >= old(td)[old(current).hash]
      ensures old(Heaviest()) ==> Heaviest()
    {
      if header.number == 0 || header.parent !in td || headers[header.parent].number != header.number - 1 {
        return NonStat;
      }
      var ptd := td[header.parent];
      var localTd := td[current.hash];
      var externTd := header.difficulty + ptd;
      Grow(headers, td, genesis, canon, top, header);
      td := td[header.hash := externTd];
      headers := headers[header.hash := header];
      if externTd > localTd || (externTd == localTd && coin) {
        MakeHead(header);
        status := CanonStat;
      } else {
        status := SideStat;
      }
    }

    /** The body of the import loop: skip a known header, write any other. */
    method InsertOne(header: Header, coin: bool) returns (known: bool)
      requires Valid() == true && (header.hash in headers ==> headers[header.hash] == header)
      modifies this
      ensures Valid() == true && (old(Heaviest()) == true ==> Heaviest() == true)
      ensures td[current.hash] >= old(td)[old(current).hash]
      ensures known <==> header.hash in old(headers) || Attaches(header, old(headers))
      ensures headers == if known then old(headers)[header.hash := header] else old(headers)
      ensures Kept(old(td), td)
      ensures current == if header.hash !in old(headers) && known && Wins(td, header.hash, old(current).hash, coin)
                         then header else old(current)
      ensures !known || header.hash in old(headers) ==> td == old(td) && canon == old(canon) && top == old(top)
    {
      if header.hash in headers {
        assert headers == headers[header.hash := header];
        return true;
      }
      var status := WriteHeader(header, coin);
      known := !status.NonStat?;
    }

    /**
     InsertHeaderChain: write the headers one by one, skipping known ones, until one is refused or the
     caller interrupts.  A linked chain that attaches to the tree is never refused.
     */
    method InsertHeaderChain(chain: seq<Header>, coins: seq<bool>, interrupt: seq<bool>) returns (n: nat, ok: bool)
      requires Valid() && chain != [] && |coins| == |chain| == |interrupt|
      requires Distinct(chain) == true && Agrees(chain, headers) == true
      modifies this
      ensures Valid() == true && (old(Heaviest()) == true ==> Heaviest() == true)
      ensures td[current.hash] >= old(td)[old(current).hash]
      ensures Importing(old(headers), old(td), old(current), headers, td, current, chain, coins,
                        if ok then |chain| else n) == true
      ensures ok ==> n == 0 && forall k :: 0 <= k < |chain| ==> !interrupt[k]
      ensures !ok ==> n < |chain| && forall k :: 0 <= k < n ==> !interrupt[k]
      ensures !ok ==> interrupt[n] || (chain[n].hash !in headers && !Attaches(chain[n], headers))
      ensures Contiguous(chain) && Attaches(chain[0], old(headers)) && !ok ==> interrupt[n]
    {
      ghost var headers0, td0, head0 := headers, td, current;
      ImportStarts(headers, td, current, chain, coins);
      n, ok := InsertAll(chain, coins, interrupt, headers0, td0, head0, Heaviest(), td[current.hash]);
      assert Opened(0);
      if !ok {
        ImportLinked(headers0, td0, head0, headers, td, current, chain, coins, n);
      }
    }

    method InsertAll(chain: seq<Header>, coins: seq<bool>, interrupt: seq<bool>, ghost headers0: map<Hash, Header>,
                     ghost td0: map<Hash, nat>, ghost head0: Header, ghost heaviest: bool, ghost weight: nat)
      returns (n: nat, ok: bool)
      requires Sound(heaviest, weight) == true && |coins| == |chain| == |interrupt|
      requires Importing(headers0, td0, head0, headers, td, current, chain, coins, 0) == true
      modifies this
      ensures Sound(heaviest, weight) == true
      ensures ok ==> Importing(headers0, td0, head0, headers, td, current, chain, coins, |chain|) == true
      ensures !ok ==> Importing(headers0, td0, head0, headers, td, current, chain, coins, n) == true
      ensures ok ==> n == 0 && forall k :: 0 <= k < |chain| ==> !interrupt[k]
      ensures !ok ==> n < |chain| && forall k :: 0 <= k < n ==> !interrupt[k]
      ensures !ok ==> interrupt[n] || (chain[n].hash !in headers && !Attaches(chain[n], headers))
    {
      for i := 0 to |chain|
        invariant Sound(heaviest, weight) == true
        invariant Importing(headers0, td0, head0, headers, td, current, chain, coins, i) == true
        invariant forall k :: 0 <= k < i ==> !interrupt[k]
      {
        if interrupt[i] {
          return i, false;
        }
        var known := InsertNext(chain, coins, i, headers0, td0, head0, heaviest, weight);
        if !known {
          return i, false;
        }
      }
      n, ok := 0, true;
    }

    /** One header of an import. */
    method InsertNext(chain: seq<Header>, coins: seq<bool>, i: nat, ghost headers0: map<Hash, Header>,
                      ghost td0: map<Hash, nat>, ghost head0: Header, ghost heaviest: bool, ghost weight: nat)
      returns (known: bool)
      requires Sound(heaviest, weight) == true && i < |chain| == |coins|
      requires Importing(headers0, td0, head0, headers, td, current, chain, coins, i) == true
      modifies this
      ensures Sound(heaviest, weight) == true
      ensures known ==> Importing(headers0, td0, head0, headers, td, current, chain, coins, i + 1) == true
      ensures !known ==> Importing(headers0, td0, head0, headers, td, current, chain, coins, i) == true
      ensures !known ==> chain[i].hash !in headers && !Attaches(chain[i], headers)
    {
      assert Opened(0);
      ImportAt(headers0, td0, head0, headers, td, current, chain, coins, i);
      known := InsertOne(chain[i], coins[i]);
      if known {
        ImportNext(headers0, td0, head0, old(headers), old(td), old(current), headers, td, current, chain, coins, i);
      }
    }

    /**
     Rollback, as far as it concerns headers: step the head back over the given hashes, last one first.
     Stepping back from genesis is a nil dereference (`!ok`).  The head goes back over the longest stretch of its
     ancestry that occurs in order among the hashes.
     */
    method Rollback(chain: seq<Hash>) returns (ok: bool)
      requires Valid()
      modifies this`current
      ensures Valid() && current.number <= old(current).number && (!ok ==> current == genesis)
      ensures current.hash == Ancestor(headers, genesis, old(current).hash, current.number)
      ensures GoneBack(headers, genesis, old(current).hash, chain,
                       old(current).number - current.number + if ok then 0 else 1)
      ensures genesis.hash !in chain ==> ok
      ensures old(current).hash !in chain ==> ok && current == old(current)
      ensures forall k: nat :: k <= old(current).number && chain == Recent(headers, genesis, old(current).hash, k) ==>
                ok && current.number == old(current).number - k
    {
      ghost var head, number := current.hash, current.number;
      var i := |chain| - 1;
      while i >= 0
        invariant -1 <= i < |chain|
        invariant Valid() && current.number <= number
        invariant current.hash == Ancestor(headers, genesis, head, current.number)
        invariant GoneBack(headers, genesis, head, chain[i + 1..], number - current.number) == true
      {
        assert [chain[i]] + chain[i + 1..] == chain[i..];
        GoesBack(headers, genesis, head, chain[i], chain[i + 1..], number - current.number);
        if current.hash == chain[i] {
          assert Placed(headers, genesis, current.hash);
          if current.number == 0 {
            AllGone(headers, genesis, head, chain[..i], chain[i..]);
            assert chain[..i] + chain[i..] == chain;
            GoneRecent(headers, genesis, head, chain, number + 1);
            return false;
          }
          assert Placed(headers, genesis, current.parent);
          AncestorLinked(headers, genesis, head, current.number - 1);
          current := headers[current.parent];
        }
        i := i - 1;
      }
      assert chain[0..] == chain;
      GoneRecent(headers, genesis, head, chain, number - current.number);
      ok := true;
    }
  }

  // ---------------------------------------------------------------- going back

  /** The elements of `sub` are in `s`, in this order. */
  ghost predicate Occurs(sub: seq<Hash>, s: seq<Hash>) {
    || sub == []
    || (s != [] && (Occurs(sub, s[1..]) || (sub[0] == s[0] && Occurs(sub[1..], s[1..]))))
  }

  /** The last `k` headers on the way from genesis to `h`. */
  ghost function Recent(headers: map<Hash, Header>, genesis: Header, h: Hash, k: nat): (r: seq<Hash>)
    requires IsTree(headers, genesis) && h in headers && k <= headers[h].number + 1
    ensures |r| == k
    ensures forall i :: 0 <= i < k ==> r[i] == Ancestor(headers, genesis, h, headers[h].number + 1 - k + i)
  {
    if k == 0 then [] else
      [Ancestor(headers, genesis, h, headers[h].number + 1 - k)] + Recent(headers, genesis, h, k - 1)
  }

  /** Of the way to `h`, exactly the last `gone` headers and no more occur in order among the hashes. */
  ghost predicate GoneBack(headers: map<Hash, Header>, genesis: Header, h: Hash, hashes: seq<Hash>, gone: nat)
    requires IsTree(headers, genesis) && h in headers
  {
    && gone <= headers[h].number + 1
    && forall k: nat :: k <= headers[h].number + 1 ==>
         (Occurs(Recent(headers, genesis, h, k), hashes) <==> k <= gone)
  }

  /** One more hash in front takes one more header exactly if it is the next one on the way back. */
  lemma GoesBack(headers: map<Hash, Header>, genesis: Header, h: Hash, hash: Hash, hashes: seq<Hash>, gone: nat)
    requires IsTree(headers, genesis) && h in headers && gone <= headers[h].number
    requires GoneBack(headers, genesis, h, hashes, gone)
    ensures GoneBack(headers, genesis, h, [hash] + hashes,
                     if Ancestor(headers, genesis, h, headers[h].number - gone) == hash then gone + 1 else gone) == true
  {
    var all := [hash] + hashes;
    var gone' := if Ancestor(headers, genesis, h, headers[h].number - gone) == hash then gone + 1 else gone;
    assert all[1..] == hashes;
    forall k: nat | k <= headers[h].number + 1
      ensures Occurs(Recent(headers, genesis, h, k), all) <==> k <= gone'
    {
      if k > 0 {
        assert Recent(headers, genesis, h, k)[1..] == Recent(headers, genesis, h, k - 1);
      }
    }
  }

  lemma {:induction false} OccursBehind(sub: seq<Hash>, front: seq<Hash>, s: seq<Hash>)
    requires Occurs(sub, s)
    ensures Occurs(sub, front + s)
    decreases |front|
  {
    if front == [] {
      assert front + s == s;
    } else {
      OccursBehind(sub, front[1..], s);
      assert (front + s)[1..] == front[1..] + s;
    }
  }

  /** What occurs is no longer and holds nothing else. */
  lemma {:induction false} OccursIn(sub: seq<Hash>, s: seq<Hash>)
    requires Occurs(sub, s)
    ensures |sub| <= |s| && forall x :: x in sub ==> x in s
    decreases |s|
  {
    if sub != [] {
      if Occurs(sub, s[1..]) {
        OccursIn(sub, s[1..]);
      } else {
        OccursIn(sub[1..], s[1..]);
        assert sub == [sub[0]] + sub[1..];
      }
    }
  }

  lemma {:induction false} OccursWhole(s: seq<Hash>)
    ensures Occurs(s, s)
    decreases |s|
  {
    if s != [] { OccursWhole(s[1..]); }
  }

  /** Once all of the way has gone, no further hash matters. */
  lemma AllGone(headers: map<Hash, Header>, genesis: Header, h: Hash, front: seq<Hash>, hashes: seq<Hash>)
    requires IsTree(headers, genesis) && h in headers && GoneBack(headers, genesis, h, hashes, headers[h].number + 1)
    ensures GoneBack(headers, genesis, h, front + hashes, headers[h].number + 1) == true
  {
    forall k: nat | k <= headers[h].number + 1
      ensures Occurs(Recent(headers, genesis, h, k), front + hashes)
    {
      OccursBehind(Recent(headers, genesis, h, k), front, hashes);
    }
  }

  /** Without the head nothing goes; the last headers of the way, in order, go exactly. */
  lemma GoneRecent(headers: map<Hash, Header>, genesis: Header, h: Hash, hashes: seq<Hash>, gone: nat)
    requires IsTree(headers, genesis) && h in headers && GoneBack(headers, genesis, h, hashes, gone)
    ensures h !in hashes ==> gone == 0
    ensures forall k: nat :: k <= headers[h].number && hashes == Recent(headers, genesis, h, k) ==> gone == k
  {
    if gone > 0 {
      assert Recent(headers, genesis, h, 1)[0] == h;
      OccursIn(Recent(headers, genesis, h, 1), hashes);
    }
    forall k: nat | k <= headers[h].number && hashes == Recent(headers, genesis, h, k)
      ensures gone == k
    {
      OccursWhole(hashes);
      if gone > k { OccursIn(Recent(headers, genesis, h, k + 1), hashes); }
    }
  }

  /** Hashes identify headers: within a chain, and between a chain and the store. */
  ghost predicate Distinct(chain: seq<Header>)
  {
    forall j, k :: 0 <= j < |chain| && 0 <= k < |chain| && chain[j].hash == chain[k].hash ==> chain[j] == chain[k]
  }

  ghost predicate Agrees(chain: seq<Header>, headers: map<Hash, Header>)
  {
    forall k :: 0 <= k < |chain| && chain[k].hash in headers ==> headers[chain[k].hash] == chain[k]
  }

  /** Each header is the child of the one before it. */
  ghost predicate Contiguous(chain: seq<Header>)
  {
    forall i, j :: 0 <= i < j < |chain| && j == i + 1 ==>
      chain[j].number == chain[i].number + 1 && chain[j].parent == chain[i].hash
  }

  lemma ImportedNext(start: map<Hash, Header>, before: map<Hash, Header>, now: map<Hash, Header>, chain: seq<Header>,
                     i: nat)
    requires i < |chain| && Imported(start, before, chain[..i]) && Agrees(chain, before) && Distinct(chain)
    requires now == before[chain[i].hash := chain[i]]
    ensures Imported(start, now, chain[..i + 1]) == true && Agrees(chain, now)
  {
    assert chain[..i + 1] == chain[..i] + [chain[i]];
  }

  /** A header is new exactly if it is not recorded when its turn comes. */
  lemma NewThen(start: map<Hash, Header>, before: map<Hash, Header>, chain: seq<Header>, i: nat)
    requires i < |chain| && Imported(start, before, chain[..i])
    ensures New(start, chain, i) <==> chain[i].hash !in before
  {
    forall j | 0 <= j < i
      ensures chain[j].hash in before
    {
      assert chain[..i][j] == chain[j];
    }
    if chain[i].hash in before && chain[i].hash !in start {
      assert before[chain[i].hash] in chain[..i];
    }
  }

  lemma ElectedKept(start: map<Hash, Header>, td0: map<Hash, nat>, td: map<Hash, nat>, head0: Header, head: Header,
                    chain: seq<Header>, coins: seq<bool>, n: nat)
    requires Elected(start, td0, head0, head, chain, coins, n) && Kept(td0, td)
    ensures Elected(start, td, head0, head, chain, coins, n) == true
  {
    if head != head0 || !Stays(start, td0, head0.hash, chain, coins, 0, n) {
      var j :| 0 <= j < n && Takes(start, td0, head0, head, chain, coins, j, n);
      assert Takes(start, td, head0, head, chain, coins, j, n);
    }
  }

  /** The next header is known or does not win. */
  lemma ElectedStays(start: map<Hash, Header>, td: map<Hash, nat>, head0: Header, head: Header, chain: seq<Header>,
                     coins: seq<bool>, i: nat)
    requires i < |chain| == |coins| && Elected(start, td, head0, head, chain, coins, i) && chain[i].hash in td
    requires New(start, chain, i) && head.hash in td ==> !Wins(td, chain[i].hash, head.hash, coins[i])
    ensures Elected(start, td, head0, head, chain, coins, i + 1) == true
  {
    if head != head0 || !Stays(start, td, head0.hash, chain, coins, 0, i) {
      var j :| 0 <= j < i && Takes(start, td, head0, head, chain, coins, j, i);
      assert Takes(start, td, head0, head, chain, coins, j, i + 1);
    }
  }

  /** The next header wins. */
  lemma ElectedTakes(start: map<Hash, Header>, td: map<Hash, nat>, head0: Header, head: Header, chain: seq<Header>,
                     coins: seq<bool>, i: nat)
    requires i < |chain| == |coins| && Elected(start, td, head0, head, chain, coins, i) && chain[i].hash in td
    requires New(start, chain, i) && head.hash in td && Wins(td, chain[i].hash, head.hash, coins[i])
    ensures Elected(start, td, head0, chain[i], chain, coins, i + 1) == true
  {
    if head != head0 || !Stays(start, td, head0.hash, chain, coins, 0, i) {
      var j :| 0 <= j < i && Takes(start, td, head0, head, chain, coins, j, i);
    }
    assert Takes(start, td, head0, chain[i], chain, coins, i, i + 1);
  }

  lemma ElectedNext(start: map<Hash, Header>, before: map<Hash, Header>, td0: map<Hash, nat>, td: map<Hash, nat>,
                    head0: Header, head: Header, head': Header, chain: seq<Header>, coins: seq<bool>, i: nat)
    requires i < |chain| == |coins| && Elected(start, td0, head0, head, chain, coins, i) == true
    requires Imported(start, before, chain[..i]) == true && Kept(td0, td) == true
    requires head.hash in td && chain[i].hash in td
    requires head' == if chain[i].hash !in before && Wins(td, chain[i].hash, head.hash, coins[i])
                      then chain[i] else head
    ensures Elected(start, td, head0, head', chain, coins, i + 1) == true
  {
    NewThen(start, before, chain, i);
    ElectedKept(start, td0, td, head0, head, chain, coins, i);
    if head' == head && !(chain[i].hash !in before && Wins(td, chain[i].hash, head.hash, coins[i])) {
      ElectedStays(start, td, head0, head, chain, coins, i);
    } else {
      ElectedTakes(start, td, head0, head, chain, coins, i);
    }
  }

  /** After the first `n` headers of an import: exactly they are recorded, and the head is the one they elect. */
  ghost predicate Importing(headers0: map<Hash, Header>, td0: map<Hash, nat>, head0: Header,
                            headers: map<Hash, Header>, td: map<Hash, nat>, head: Header,
                            chain: seq<Header>, coins: seq<bool>, n: nat) {
    forall k: int {:trigger Opened(k)} :: Sealed(k) ==>
      && n <= |chain| && Distinct(chain) && Agrees(chain, headers) && Kept(td0, td)
      && Imported(headers0, headers, chain[..n]) && Elected(headers0, td, head0, head, chain, coins, n)
  }

  lemma ImportStarts(headers: map<Hash, Header>, td: map<Hash, nat>, head: Header, chain: seq<Header>, coins: seq<bool>)
    requires Distinct(chain) && Agrees(chain, headers) && head.hash in td && |coins| == |chain|
    ensures Importing(headers, td, head, headers, td, head, chain, coins, 0) == true
  {
    assert Opened(0);
  }

  lemma ImportAt(headers0: map<Hash, Header>, td0: map<Hash, nat>, head0: Header, headers: map<Hash, Header>,
                 td: map<Hash, nat>, head: Header, chain: seq<Header>, coins: seq<bool>, n: nat)
    requires Importing(headers0, td0, head0, headers, td, head, chain, coins, n) && n < |chain|
    ensures chain[n].hash in headers ==> headers[chain[n].hash] == chain[n]
  {
    assert Opened(0);
  }

  /** The next header of a linked chain that attaches is known or attaches. */
  lemma ImportLinked(headers0: map<Hash, Header>, td0: map<Hash, nat>, head0: Header, headers: map<Hash, Header>,
                     td: map<Hash, nat>, head: Header, chain: seq<Header>, coins: seq<bool>, n: nat)
    requires Importing(headers0, td0, head0, headers, td, head, chain, coins, n) && n < |chain|
    ensures Contiguous(chain) && Attaches(chain[0], headers0) ==>
              chain[n].hash in headers || Attaches(chain[n], headers)
  {
    assert Opened(0);
    if Contiguous(chain) && n > 0 {
      assert chain[..n][n - 1] == chain[n - 1];
      assert chain[n].number == chain[n - 1].number + 1 && chain[n].parent == chain[n - 1].hash;
    }
  }

  lemma ImportNext(headers0: map<Hash, Header>, td0: map<Hash, nat>, head0: Header, headers: map<Hash, Header>,
                   td: map<Hash, nat>, head: Header, headers': map<Hash, Header>, td': map<Hash, nat>, head': Header,
                   chain: seq<Header>, coins: seq<bool>, i: nat)
    requires Importing(headers0, td0, head0, headers, td, head, chain, coins, i) && i < |chain| == |coins|
    requires headers' == headers[chain[i].hash := chain[i]] && Kept(td, td') && td'.Keys == headers'.Keys
    requires head.hash in td'
    requires head' == if chain[i].hash !in headers && Wins(td', chain[i].hash, head.hash, coins[i])
                      then chain[i] else head
    ensures Importing(headers0, td0, head0, headers', td', head', chain, coins, i + 1) == true
  {
    assert Opened(0);
    ImportedNext(headers0, headers, headers', chain, i);
    ElectedNext(headers0, headers, td, td', head0, head, head', chain, coins, i);
  }

  /** The sanity check at the start of `ValidateHeaderChain`. */
  method ValidateLinks(chain: seq<Header>) returns (ok: bool)
    ensures ok <==> Contiguous(chain)
  {
    var i := 1;
    while i < |chain|
      invariant 1 <= i && (|chain| > 0 ==> i <= |chain|)
      invariant forall j, k :: 0 <= j < k < i && k < |chain| && k == j + 1 ==>
                  chain[k].number == chain[j].number + 1 && chain[k].parent == chain[j].hash
    {
      if chain[i].number != chain[i - 1].number + 1 || chain[i].parent != chain[i - 1].hash {
        return false;
      }
      i := i + 1;
    }
    ok := true;
  }

  // ---------------------------------------------------------------- whole runs

  datatype Op =
    | Write(header: Header, coin: bool)
    | Insert(chain: seq<Header>, coins: seq<bool>, interrupt: seq<bool>)
    | Roll(hashes: seq<Hash>)

  /** All headers of the operation are headers of the world. */
  ghost predicate Drawn(op: Op, world: map<Hash, Header>)
  {
    match op
    case Write(h, _) => h.hash in world && world[h.hash] == h
    case Insert(chain, coins, interrupt) =>
      && chain != [] && |coins| == |chain| == |interrupt|
      && forall k :: 0 <= k < |chain| ==> chain[k].hash in world && world[chain[k].hash] == chain[k]
    case Roll(_) => true
  }

  ghost predicate Within(headers: map<Hash, Header>, world: map<Hash, Header>)
  {
    forall h :: h in headers ==> h in world && world[h] == headers[h]
  }

  /** What an operation changes; the index follows from it. */
  datatype Snap = Snap(headers: map<Hash, Header>, td: map<Hash, nat>, head: Header)

  /** An operation with the states before and after it, and what it returned. */
  datatype Step = Step(before: Snap, op: Op, after: Snap, n: nat, ok: bool)

  /** The step does what its operation promises. */
  ghost predicate Did(genesis: Header, d: Step) {
    var x, y := d.before, d.after;
    match d.op
    case Write(h, coin) => if Attaches(h, x.headers) then Wrote(x, h, coin, y) else y == x
    case Insert(chain, coins, interrupt) =>
      && Importing(x.headers, x.td, x.head, y.headers, y.td, y.head, chain, coins, if d.ok then |chain| else d.n)
      && Ends(chain, interrupt, y.headers, d.n, d.ok)
    case Roll(hashes) =>
      && y == x.(head := y.head) && IsTree(x.headers, genesis) && x.head.hash in x.headers
      && y.head.number <= x.head.number
      && GoneBack(x.headers, genesis, x.head.hash, hashes, x.head.number - y.head.number + if d.ok then 0 else 1)
  }

  ghost predicate Wrote(x: Snap, h: Header, coin: bool, y: Snap) {
    && y.headers == x.headers[h.hash := h] && Kept(x.td, y.td) && h.hash in y.td && x.head.hash in y.td
    && y.head == if Wins(y.td, h.hash, x.head.hash, coin) then h else x.head
  }

  /** An import ends with the last header, or with the first that is interrupted or refused. */
  ghost predicate Ends(chain: seq<Header>, interrupt: seq<bool>, headers: map<Hash, Header>, n: nat, ok: bool) {
    && |interrupt| == |chain| && (forall k :: 0 <= k < (if ok then |chain| else n) && k < |chain| ==> !interrupt[k])
    && (!ok ==> n < |chain| && (interrupt[n] || (chain[n].hash !in headers && !Attaches(chain[n], headers))))
  }

  /** The steps are those of the operations, one after the other, from `start` to `end`. */
  ghost predicate Traced(genesis: Header, ops: seq<Op>, steps: seq<Step>, start: Snap, end: Snap) {
    && |steps| == |ops| && (forall i :: 0 <= i < |steps| ==> steps[i].op == ops[i] && Did(genesis, steps[i]))
    && (forall i, j :: 0 <= i < j < |steps| && j == i + 1 ==> steps[j].before == steps[i].after)
    && (if steps == [] then end == start else steps[0].before == start && steps[|steps| - 1].after == end)
  }

  lemma TracedMore(genesis: Header, ops: seq<Op>, i: nat, steps: seq<Step>, start: Snap, d: Step)
    requires i < |ops| && Traced(genesis, ops[..i], steps, start, d.before) && d.op == ops[i] && Did(genesis, d)
    ensures Traced(genesis, ops[..i + 1], steps + [d], start, d.after) == true
  {
    assert ops[..i + 1] == ops[..i] + [ops[i]];
  }

  ghost function Now(hc: HeaderChain): Snap
    reads hc
  {
    Snap(hc.headers, hc.td, hc.current)
  }

  /**
   Any run of header writes, chain imports and rollbacks, with any coins and interruptions, keeps the
   chain valid; without rollbacks the head is the heaviest header ever written.
   */
  method Run(hc: HeaderChain, ops: seq<Op>, ghost world: map<Hash, Header>) returns (ghost steps: seq<Step>)
    requires hc.Valid() && Within(hc.headers, world)
    requires forall k :: 0 <= k < |ops| ==> Drawn(ops[k], world)
    modifies hc
    ensures hc.Valid() && Traced(hc.genesis, ops, steps, old(Now(hc)), Now(hc)) == true
    ensures old(hc.Heaviest()) && (forall k :: 0 <= k < |ops| ==> !ops[k].Roll?) ==>
              hc.Heaviest() && hc.td[hc.current.hash] >= old(hc.td)[old(hc.current).hash]
  {
    steps := [];
    ghost var start := Now(hc);
    for k := 0 to |ops|
      invariant hc.Valid() == true && Within(hc.headers, world)
      invariant Traced(hc.genesis, ops[..k], steps, start, Now(hc)) == true
      invariant old(hc.Heaviest()) && (forall j :: 0 <= j < k ==> !ops[j].Roll?) ==>
                  hc.Heaviest() && hc.td[hc.current.hash] >= old(hc.td)[old(hc.current).hash]
    {
      assert Drawn(ops[k], world);
      ghost var d := Do(hc, ops[k], world);
      TracedMore(hc.genesis, ops, k, steps, start, d);
      steps := steps + [d];
    }
    assert ops[..|ops|] == ops;
  }

  /** One write, import or rollback. */
  method Do(hc: HeaderChain, op: Op, ghost world: map<Hash, Header>) returns (ghost d: Step)
    requires hc.Valid() && Within(hc.headers, world) && Drawn(op, world)
    modifies hc
    ensures hc.Valid() == true && Within(hc.headers, world)
    ensures d.before == old(Now(hc)) && d.op == op && d.after == Now(hc) && Did(hc.genesis, d) == true
    ensures !op.Roll? && old(hc.Heaviest()) ==>
              hc.Heaviest() && hc.td[hc.current.hash] >= old(hc.td)[old(hc.current).hash]
  {
    ghost var x := Now(hc);
    match op {
      case Write(header, coin) =>
        var status := hc.WriteHeader(header, coin);
        d := Step(x, op, Now(hc), 0, true);
      case Insert(chain, coins, interrupt) =>
        var n, ok := hc.InsertHeaderChain(chain, coins, interrupt);
        assert Opened(0);
        d := Step(x, op, Now(hc), n, ok);
      case Roll(hashes) =>
        var ok := hc.Rollback(hashes);
        d := Step(x, op, Now(hc), 0, ok);
    }
  }

  /** The header's parent is known, one number below. */
  predicate Attaches(header: Header, headers: map<Hash, Header>)
  {
    header.number > 0 && header.parent in headers && headers[header.parent].number + 1 == header.number
  }

  lemma {:induction false} AncestorCompose(headers: map<Hash, Header>, genesis: Header, h: Hash, m: nat, n: nat)
    requires IsTree(headers, genesis) && h in headers && n <= m <= headers[h].number
    ensures Ancestor(headers, genesis, Ancestor(headers, genesis, h, m), n) == Ancestor(headers, genesis, h, n)
    decreases headers[h].number
  {
    assert Placed(headers, genesis, h);
    if m < headers[h].number { AncestorCompose(headers, genesis, headers[h].parent, m, n); }
  }
}