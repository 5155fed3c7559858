/** Block headers and the hash link between them, as zcncore/transaction_base.go checks it. The hash
    function is a parameter: nothing is assumed about it. */
module BlockChain {
  import opened Support

  datatype BlockHeader = BlockHeader(
    version: string,
    creationDate: int64,
    hash: string,
    minerId: string,
    round: int64,
    roundRandomSeed: int64,
    stateChangesCount: int64,
    merkleTreeRoot: string,
    stateHash: string,
    receiptMerkleTreeRoot: string,
    numTxns: int64)

  type HashFunction = string -> string

  /** The eight fields a block hash is taken over, as printed. */
  function Fields(prevHash: string, b: BlockHeader): seq<string> {
    [b.minerId, prevHash, Decimal(b.creationDate), Decimal(b.round), Decimal(b.roundRandomSeed),
     Decimal(b.stateChangesCount), b.merkleTreeRoot, b.receiptMerkleTreeRoot]
  }

  function HashInput(prevHash: string, b: BlockHeader): string {
    Join(Fields(prevHash, b), ":")
  }

  predicate IsBlockExtends(hash: HashFunction, prevHash: string, b: BlockHeader) {
    b.hash == hash(HashInput(prevHash, b))
  }

  /** The block hash the i-th header of a chain has to extend. */
  function PrevHash(start: string, chain: seq<BlockHeader>, i: nat): string
    requires i <= |chain|
  {
    if i == 0 then start else chain[i - 1].hash
  }

  /** Hash of the last block, or the start of an empty chain. */
  function Tip(start: string, chain: seq<BlockHeader>): string {
    PrevHash(start, chain, |chain|)
  }

  ghost predicate Linked(hash: HashFunction, start: string, chain: seq<BlockHeader>) {
    chain != [] ==>
      var m := |chain| - 1;
      Linked(hash, start, chain[..m]) && IsBlockExtends(hash, Tip(start, chain[..m]), chain[m])
  }

  lemma LinkedExtend(hash: HashFunction, start: string, chain: seq<BlockHeader>, b: BlockHeader)
    requires Linked(hash, start, chain)
    requires IsBlockExtends(hash, Tip(start, chain), b)
    ensures Linked(hash, start, chain + [b])
    ensures Tip(start, chain + [b]) == b.hash
  {
    assert (chain + [b])[..|chain|] == chain;
  }

  /** Linking is a condition on neighbours. */
  lemma {:induction false} LinkedEverywhere(hash: HashFunction, start: string, chain: seq<BlockHeader>, i: nat)
    requires Linked(hash, start, chain)
    requires i < |chain|
    ensures IsBlockExtends(hash, PrevHash(start, chain, i), chain[i])
  {
    var m := |chain| - 1;
    if i < m {
      LinkedEverywhere(hash, start, chain[..m], i);
    }
    assert PrevHash(start, chain[..m], i) == PrevHash(start, chain, i);
  }

  lemma TipExtends(hash: HashFunction, start: string, chain: seq<BlockHeader>, i: nat)
    requires Linked(hash, start, chain) && i < |chain|
    ensures IsBlockExtends(hash, Tip(start, chain[..i]), chain[i])
  {
    LinkedEverywhere(hash, start, chain, i);
    assert Tip(start, chain[..i]) == PrevHash(start, chain, i);
  }

  lemma SplitAtColon(a: string, x: string, b: string, y: string)
    requires ':' !in a && ':' !in b
    requires a + ":" + x == b + ":" + y
    ensures a == b && x == y
  {
    var s, t := a + ":" + x, b + ":" + y;
    assert s[|a|] == ':' && t[|b|] == ':';
    assert forall i :: 0 <= i < |a| ==> s[i] == a[i] && a[i] in a;
    assert forall i :: 0 <= i < |b| ==> t[i] == b[i] && b[i] in b;
    assert |a| == |b|;
    assert a == s[..|a|] && b == t[..|b|];
    assert x == s[|a| + 1..] && y == t[|b| + 1..];
  }

  /** Joined parts can be told apart up to the first part that holds a colon. */
  lemma {:induction false} JoinDetermines(a: seq<string>, b: seq<string>, k: nat)
    requires |a| == |b| && k < |a|
    requires Join(a, ":") == Join(b, ":")
    requires forall i :: 0 <= i < k ==> ':' !in a[i] && ':' !in b[i]
    ensures forall i :: 0 <= i < k ==> a[i] == b[i]
    ensures Join(a[k..], ":") == Join(b[k..], ":")
  {
    if k > 0 {
      SplitAtColon(a[0], Join(a[1..], ":"), b[0], Join(b[1..], ":"));
      JoinDetermines(a[1..], b[1..], k - 1);
      assert a[1..][k - 1..] == a[k..] && b[1..][k - 1..] == b[k..];
      assert forall i :: 1 <= i < k ==> a[i] == a[1..][i - 1] && b[i] == b[1..][i - 1];
    } else {
      assert a[0..] == a && b[0..] == b;
    }
  }

  // ----- which miner ids can be confused -----

  /** The text before the first colon, and the text after it. */
  function Head(s: string): string {
    s[..Find(s, ':')]
  }

  function Rest(s: string): string {
    var k := Find(s, ':');
    if k < |s| then s[k + 1..] else ""
  }

  /** The first n of the parts between colons, or all if there are fewer, are numerals of 64-bit numbers. */
  predicate NumbersLead(s: string, n: nat)
    decreases n
  {
    n > 0 ==> IsInt64(Head(s)) && (':' in s ==> NumbersLead(Rest(s), n - 1))
  }

  /** The second id is the first one, a colon, and a text that can be read as a previous hash followed by
      up to four of the 64-bit numbers that come after it. */
  predicate Confusable(m: string, n: string) {
    m + ":" <= n && (':' in n[|m| + 1..] ==> NumbersLead(Rest(n[|m| + 1..]), 4))
  }

  predicate IdsApart(m: string, n: string) {
    !Confusable(m, n) && !Confusable(n, m)
  }

  lemma ColonFreeIdsAreApart(m: string, n: string)
    requires ':' !in m && ':' !in n
    ensures IdsApart(m, n)
  {
    assert (m + ":")[|m|] == ':' && (n + ":")[|n|] == ':';
  }

  lemma CutAt(a: string, x: string)
    requires ':' !in a
    ensures ':' in a + ":" + x && Head(a + ":" + x) == a && Rest(a + ":" + x) == x
  {
    FindAfter(a, ':', x);
    assert a + ":" + x == a + [':'] + x;
    assert (a + ":" + x)[|a|] == ':';
  }

  lemma HeadAndRest(s: string)
    ensures ':' !in Head(s)
    ensures ':' in s ==> s == Head(s) + ":" + Rest(s)
    ensures ':' !in s ==> s == Head(s) && Rest(s) == ""
  {
    if ':' in s {
      var k := Find(s, ':');
      assert s == s[..k] + [s[k]] + s[k + 1..];
    }
  }

  lemma Regroup(a: string, b: string, c: string)
    ensures a + ":" + b + ":" + c == a + ":" + (b + ":" + c)
  {
  }

  /** A text keeps its head when another one is appended behind a colon. */
  lemma HeadOfJoined(a: string, x: string)
    ensures Head(a + ":" + x) == Head(a)
    ensures Rest(a + ":" + x) == if ':' in a then Rest(a) + ":" + x else x
  {
    HeadAndRest(a);
    if ':' in a {
      CutAt(Head(a), Rest(a) + ":" + x);
      Regroup(Head(a), Rest(a), x);
    } else {
      CutAt(a, x);
    }
  }

  lemma {:induction false} FewerNumbersLead(s: string, n: nat)
    requires NumbersLead(s, n + 1)
    ensures NumbersLead(s, n)
    decreases n
  {
    if n > 0 && ':' in s {
      FewerNumbersLead(Rest(s), n - 1);
    }
  }

  /** Of a joined text, the first part alone starts with numbers if the whole does; if both do, so does
      the whole. */
  lemma {:induction false} NumbersLeadJoined(a: string, x: string, n: nat)
    ensures NumbersLead(a + ":" + x, n) ==> NumbersLead(a, n)
    ensures NumbersLead(a, n) && NumbersLead(x, n) ==> NumbersLead(a + ":" + x, n)
    decreases n
  {
    if n > 0 {
      HeadOfJoined(a, x);
      NumbersLeadJoined(Rest(a), x, n - 1);
      if NumbersLead(x, n) {
        FewerNumbersLead(x, n - 1);
      }
    }
  }

  /** The numbers and roots of a header, as they are printed behind the previous hash. */
  function Tail(b: BlockHeader): string {
    Decimal(b.creationDate) + ":" + (Decimal(b.round) + ":" + (Decimal(b.roundRandomSeed) + ":" +
      (Decimal(b.stateChangesCount) + ":" + (b.merkleTreeRoot + ":" + b.receiptMerkleTreeRoot))))
  }

  lemma JoinFrom(f: seq<string>, k: nat)
    requires k + 1 < |f|
    ensures Join(f[k..], ":") == f[k] + ":" + Join(f[k + 1..], ":")
  {
    assert f[k..][1..] == f[k + 1..];
  }

  lemma HashInputParts(p: string, b: BlockHeader)
    ensures HashInput(p, b) == b.minerId + ":" + (p + ":" + Tail(b))
  {
    var f := Fields(p, b);
    assert f[0..] == f && Join(f[7..], ":") == b.receiptMerkleTreeRoot;
    JoinFrom(f, 0);
    JoinFrom(f, 1);
    JoinFrom(f, 2);
    JoinFrom(f, 3);
    JoinFrom(f, 4);
    JoinFrom(f, 5);
    JoinFrom(f, 6);
  }

  /** The link test, spelled out. */
  lemma ExtendsIff(hash: HashFunction, prevHash: string, b: BlockHeader)
    ensures IsBlockExtends(hash, prevHash, b) <==>
              b.hash == hash(b.minerId + ":" + prevHash + ":" + Decimal(b.creationDate) + ":" + Decimal(b.round)
                             + ":" + Decimal(b.roundRandomSeed) + ":" + Decimal(b.stateChangesCount)
                             + ":" + b.merkleTreeRoot + ":" + b.receiptMerkleTreeRoot)
  {
    var t6 := b.merkleTreeRoot + ":" + b.receiptMerkleTreeRoot;
    var t5 := Decimal(b.stateChangesCount) + ":" + t6;
    var t4 := Decimal(b.roundRandomSeed) + ":" + t5;
    var t3 := Decimal(b.round) + ":" + t4;
    var h1 := b.minerId + ":" + prevHash;
    var h2 := h1 + ":" + Decimal(b.creationDate);
    var h3 := h2 + ":" + Decimal(b.round);
    var h4 := h3 + ":" + Decimal(b.roundRandomSeed);
    var h5 := h4 + ":" + Decimal(b.stateChangesCount);
    HashInputParts(prevHash, b);
    Regroup(b.minerId, prevHash, Tail(b));
    Regroup(h1, Decimal(b.creationDate), t3);
    Regroup(h2, Decimal(b.round), t4);
    Regroup(h3, Decimal(b.roundRandomSeed), t5);
    Regroup(h4, Decimal(b.stateChangesCount), t6);
    Regroup(h5, b.merkleTreeRoot, b.receiptMerkleTreeRoot);
    assert HashInput(prevHash, b) == h5 + ":" + b.merkleTreeRoot + ":" + b.receiptMerkleTreeRoot;
  }

  lemma NumberLeads(i: int64, x: string, n: nat)
    requires NumbersLead(x, n)
    ensures NumbersLead(Decimal(i) + ":" + x, n + 1)
  {
    DecimalChars(i, ':');
    DecimalIsNumeral(i);
    CutAt(Decimal(i), x);
  }

  lemma TailStartsWithNumbers(b: BlockHeader)
    ensures NumbersLead(Tail(b), 4)
  {
    var roots := b.merkleTreeRoot + ":" + b.receiptMerkleTreeRoot;
    var t1 := Decimal(b.stateChangesCount) + ":" + roots;
    var t2 := Decimal(b.roundRandomSeed) + ":" + t1;
    NumberLeads(b.stateChangesCount, roots, 0);
    NumberLeads(b.roundRandomSeed, t1, 1);
    NumberLeads(b.round, t2, 2);
    NumberLeads(b.creationDate, Decimal(b.round) + ":" + t2, 3);
  }

  /** Two texts of this shape share the id, or the shorter id is continued in the longer one. */
  lemma LongerId(m: string, x: string, n: string, y: string)
    requires m + ":" + x == n + ":" + y && |m| <= |n|
    ensures m == n ==> x == y
    ensures |m| == |n| ==> m == n
    ensures |m| < |n| ==> m + ":" <= n && x == n[|m| + 1..] + ":" + y
  {
    var s := m + ":" + x;
    assert s[..|m|] == m && s[|m|] == ':' && s[|m| + 1..] == x;
    assert s[..|n|] == n && s[|n|] == ':' && s[|n| + 1..] == y;
    if |m| < |n| {
      assert n[..|m| + 1] == s[..|m| + 1] == m + ":";
      assert n[|m| + 1..] + ":" + y == s[|m| + 1..];
    }
  }

  /** Equal hash texts with different ids: the longer id is confusable with the shorter one. */
  lemma SameTextConfuses(p: string, b: BlockHeader, q: string, c: BlockHeader)
    requires HashInput(p, b) == HashInput(q, c)
    requires ':' !in p && |b.minerId| <= |c.minerId|
    ensures b.minerId == c.minerId || Confusable(b.minerId, c.minerId)
  {
    var m, n := b.minerId, c.minerId;
    HashInputParts(p, b);
    HashInputParts(q, c);
    LongerId(m, p + ":" + Tail(b), n, q + ":" + Tail(c));
    if |m| < |n| {
      var r := n[|m| + 1..];
      CutAt(p, Tail(b));
      HeadOfJoined(r, q + ":" + Tail(c));
      TailStartsWithNumbers(b);
      if ':' in r {
        NumbersLeadJoined(Rest(r), q + ":" + Tail(c), 4);
      }
    }
  }

  /** Equal hash texts mean equal miner ids, previous hashes and numbers, as long as the ids are not
      confusable and the previous hashes hold no colon; with colon-free Merkle roots the roots agree. */
  lemma HashInputDetermines(p: string, b: BlockHeader, q: string, c: BlockHeader)
    requires HashInput(p, b) == HashInput(q, c)
    requires IdsApart(b.minerId, c.minerId)
    requires ':' !in p && ':' !in q
    ensures p == q && b.minerId == c.minerId
    ensures b.creationDate == c.creationDate && b.round == c.round
    ensures b.roundRandomSeed == c.roundRandomSeed && b.stateChangesCount == c.stateChangesCount
    ensures ':' !in b.merkleTreeRoot && ':' !in c.merkleTreeRoot ==>
              b.merkleTreeRoot == c.merkleTreeRoot && b.receiptMerkleTreeRoot == c.receiptMerkleTreeRoot
  {
    if |b.minerId| <= |c.minerId| {
      SameTextConfuses(p, b, q, c);
    } else {
      SameTextConfuses(q, c, p, b);
    }
    SameIdDetermines(p, b, q, c);
  }

  /** With the same id on both sides nothing has to be known about the id. */
  lemma SameIdDetermines(p: string, b: BlockHeader, q: string, c: BlockHeader)
    requires HashInput(p, b) == HashInput(q, c)
    requires b.minerId == c.minerId
    requires ':' !in p && ':' !in q
    ensures p == q
    ensures b.creationDate == c.creationDate && b.round == c.round
    ensures b.roundRandomSeed == c.roundRandomSeed && b.stateChangesCount == c.stateChangesCount
    ensures ':' !in b.merkleTreeRoot && ':' !in c.merkleTreeRoot ==>
              b.merkleTreeRoot == c.merkleTreeRoot && b.receiptMerkleTreeRoot == c.receiptMerkleTreeRoot
  {
    var f, g := Fields(p, b)[1..], Fields(q, c)[1..];
    NumbersHoldNoColon(p, b);
    NumbersHoldNoColon(q, c);
    LongerId(b.minerId, Join(f, ":"), c.minerId, Join(g, ":"));
    JoinDetermines(f, g, 5);
    assert f[0] == g[0] && f[1] == g[1] && f[2] == g[2] && f[3] == g[3] && f[4] == g[4];
    DecimalIsInjective(b.creationDate, c.creationDate);
    DecimalIsInjective(b.round, c.round);
    DecimalIsInjective(b.roundRandomSeed, c.roundRandomSeed);
    DecimalIsInjective(b.stateChangesCount, c.stateChangesCount);
    if ':' !in b.merkleTreeRoot && ':' !in c.merkleTreeRoot {
      JoinDetermines(f, g, 6);
      assert f[5] == g[5] && f[6..] == [b.receiptMerkleTreeRoot] && g[6..] == [c.receiptMerkleTreeRoot];
    }
  }

  lemma NumbersHoldNoColon(p: string, b: BlockHeader)
    ensures forall i :: 2 <= i < 6 ==> ':' !in Fields(p, b)[i]
  {
    DecimalChars(b.creationDate, ':');
    DecimalChars(b.round, ':');
    DecimalChars(b.roundRandomSeed, ':');
    DecimalChars(b.stateChangesCount, ':');
  }

  function Colons(s: string): nat
    decreases |s|
  {
    if ':' in s then
      HeadAndRest(s);
      1 + Colons(Rest(s))
    else 0
  }

  lemma {:induction false} ColonsJoined(a: string, x: string)
    ensures Colons(a + ":" + x) == Colons(a) + 1 + Colons(x)
    decreases |a|
  {
    HeadAndRest(a);
    HeadOfJoined(a, x);
    assert (a + ":" + x)[|a|] == ':';
    if ':' in a {
      ColonsJoined(Rest(a), x);
    }
  }

  /** One number off the front of a text. */
  lemma PeelNumber(s: string, n: nat, colons: nat) returns (i: int64, x: string)
    requires NumbersLead(s, n + 1) && Colons(s) >= colons + 1
    ensures s == Decimal(i) + ":" + x && NumbersLead(x, n) && Colons(x) >= colons
  {
    HeadAndRest(s);
    NumeralIsDecimal(Head(s));
    i := NumeralValue(Head(s));
    x := Rest(s);
  }

  /** A text that starts with four numbers and has two more parts is printed by some header. */
  lemma ReadTail(s: string, id: string, hash: string) returns (b: BlockHeader)
    requires NumbersLead(s, 4) && Colons(s) >= 5
    ensures Tail(b) == s && b.minerId == id && b.hash == hash
  {
    var creationDate, s1 := PeelNumber(s, 3, 4);
    var round, s2 := PeelNumber(s1, 2, 3);
    var seed, s3 := PeelNumber(s2, 1, 2);
    var changes, s4 := PeelNumber(s3, 0, 1);
    HeadAndRest(s4);
    b := BlockHeader("", creationDate, hash, id, round, seed, changes, Head(s4), "", Rest(s4), 0);
  }

  /** Two headers with these ids and different colon-free predecessors have the same hash text. */
  ghost predicate Confused(m: string, p: string, b: BlockHeader, n: string, q: string, c: BlockHeader) {
    && b.minerId == m && c.minerId == n
    && p != q && ':' !in p && ':' !in q
    && HashInput(p, b) == HashInput(q, c)
  }

  /** For every pair of confusable ids there are headers with these ids, and with different predecessors,
      that share one hash text, and with it one block hash, whatever the hash function. */
  lemma ConfusableIdsBreakTheLink(hash: HashFunction, m: string, n: string)
    returns (p: string, b: BlockHeader, q: string, c: BlockHeader)
    requires Confusable(m, n)
    ensures Confused(m, p, b, n, q, c)
    ensures b.hash == c.hash && IsBlockExtends(hash, p, b) && IsBlockExtends(hash, q, c)
  {
    var r := n[|m| + 1..];
    p := Head(r);
    var z := if p == Decimal(0) then 1 else 0;
    q := Decimal(z);
    HeadAndRest(r);
    DecimalChars(z, ':');
    DecimalsDiffer();
    c := BlockHeader("", 0, "", n, 0, 0, 0, "", "", "", 0);
    var w := q + ":" + Tail(c);
    var s := if ':' in r then Rest(r) + ":" + w else w;
    RoomBehind(q, z, c);
    if ':' in r {
      NumbersLeadJoined(Rest(r), w, 4);
      ColonsJoined(Rest(r), w);
    }
    b := ReadTail(s, m, "");
    HashInputParts(p, b);
    HashInputParts(q, c);
    SameText(m, n, w);
    b := b.(hash := hash(HashInput(p, b)));
    c := c.(hash := hash(HashInput(q, c)));
  }

  lemma SameText(m: string, n: string, w: string)
    requires m + ":" <= n
    ensures var r := n[|m| + 1..];
            m + ":" + (Head(r) + ":" + if ':' in r then Rest(r) + ":" + w else w) == n + ":" + w
  {
    var r := n[|m| + 1..];
    assert n == m + ":" + r;
    Regroup(m, r, w);
    HeadAndRest(r);
    if ':' in r {
      Regroup(Head(r), Rest(r), w);
    }
  }

  lemma DecimalsDiffer()
    ensures Decimal(0) != Decimal(1)
  {
  }

  lemma RoomBehind(q: string, z: int64, c: BlockHeader)
    requires q == Decimal(z)
    ensures NumbersLead(q + ":" + Tail(c), 4) && Colons(q + ":" + Tail(c)) >= 5
  {
    TailStartsWithNumbers(c);
    FewerNumbersLead(Tail(c), 3);
    NumberLeads(z, Tail(c), 3);
    var roots := c.merkleTreeRoot + ":" + c.receiptMerkleTreeRoot;
    var t1 := Decimal(c.stateChangesCount) + ":" + roots;
    var t2 := Decimal(c.roundRandomSeed) + ":" + t1;
    var t3 := Decimal(c.round) + ":" + t2;
    ColonsJoined(c.merkleTreeRoot, c.receiptMerkleTreeRoot);
    ColonsJoined(Decimal(c.stateChangesCount), roots);
    ColonsJoined(Decimal(c.roundRandomSeed), t1);
    ColonsJoined(Decimal(c.round), t2);
    ColonsJoined(Decimal(c.creationDate), t3);
    ColonsJoined(q, Tail(c));
  }

  /** The exact condition: headers with these two ids can share a hash text over different predecessors
      if and only if one of the ids is confusable with the other. */
  lemma LinkIsAmbiguousIff(m: string, n: string)
    ensures (exists p, b, q, c :: Confused(m, p, b, n, q, c)) <==> !IdsApart(m, n)
  {
    if p, b, q, c :| Confused(m, p, b, n, q, c) {
      if IdsApart(m, n) {
        HashInputDetermines(p, b, q, c);
        assert false;
      }
    }
    if Confusable(m, n) {
      var p, b, q, c := ConfusableIdsBreakTheLink(s => "", m, n);
    } else if Confusable(n, m) {
      var q, c, p, b := ConfusableIdsBreakTheLink(s => "", n, m);
      assert Confused(m, p, b, n, q, c);
    }
  }

  /** For instance, the ids "m" and "m:1". */
  lemma ColonsBreakTheLink(hash: HashFunction) returns (p: string, b: BlockHeader, q: string, c: BlockHeader)
    ensures b.minerId == "m" && c.minerId == "m:1"
    ensures p != q && ':' !in p && ':' !in q
    ensures b.hash == c.hash && IsBlockExtends(hash, p, b) && IsBlockExtends(hash, q, c)
  {
    assert "m" + ":" <= "m:1" && "m:1"[2..] == "1";
    p, b, q, c := ConfusableIdsBreakTheLink(hash, "m", "m:1");
  }

  // ----- chains -----

  ghost predicate ColonFree(start: string, chain: seq<BlockHeader>) {
    && ':' !in start
    && forall i :: 0 <= i < |chain| ==> ':' !in chain[i].hash
  }

  /** Block by block, the miner ids of the two chains are not confusable. */
  ghost predicate MinersApart(c: seq<BlockHeader>, d: seq<BlockHeader>)
    requires |c| == |d|
  {
    forall i :: 0 <= i < |c| ==> IdsApart(c[i].minerId, d[i].minerId)
  }

  /** Two distinct texts with the same hash, each the hash text of a block of one of the two chains. */
  ghost predicate Collision(hash: HashFunction, p: string, c: seq<BlockHeader>, q: string, d: seq<BlockHeader>, i: nat)
    requires i < |c| == |d|
  {
    && HashInput(PrevHash(p, c, i), c[i]) != HashInput(PrevHash(q, d, i), d[i])
    && hash(HashInput(PrevHash(p, c, i), c[i])) == hash(HashInput(PrevHash(q, d, i), d[i]))
  }

  ghost predicate SameBlocks(p: string, c: seq<BlockHeader>, q: string, d: seq<BlockHeader>)
    requires |c| == |d|
  {
    && p == q
    && forall i :: 0 <= i < |c| ==>
         c[i].hash == d[i].hash && c[i].round == d[i].round && c[i].minerId == d[i].minerId
  }

  ghost predicate NoCollision(hash: HashFunction, p: string, c: seq<BlockHeader>, q: string, d: seq<BlockHeader>)
    requires |c| == |d|
  {
    forall i: nat :: i < |c| ==> !Collision(hash, p, c, q, d, i)
  }

  /** Two linked chains of equal length with the same tip start from the same block and pass through
      the same blocks, unless a collision of the hash function can be read off them. */
  lemma {:induction false} SameTipSameChain(hash: HashFunction, p: string, c: seq<BlockHeader>,
                                           q: string, d: seq<BlockHeader>)
    requires |c| == |d|
    requires Linked(hash, p, c) && Linked(hash, q, d)
    requires ColonFree(p, c) && ColonFree(q, d) && MinersApart(c, d)
    requires Tip(p, c) == Tip(q, d)
    requires NoCollision(hash, p, c, q, d)
    ensures SameBlocks(p, c, q, d)
    decreases |c|
  {
    if |c| > 0 {
      var m := |c| - 1;
      SameTipStep(hash, p, c, q, d);
      NoCollisionInPrefix(hash, p, c, q, d);
      SameTipSameChain(hash, p, c[..m], q, d[..m]);
      SameBlocksExtend(p, c, q, d);
    }
  }

  /** In particular without any colon in hashes and miner ids. */
  lemma SameTipSameColonFreeChain(
    hash: HashFunction, p: string, c: seq<BlockHeader>, q: string, d: seq<BlockHeader>)
    requires |c| == |d|
    requires Linked(hash, p, c) && Linked(hash, q, d)
    requires ColonFree(p, c) && ColonFree(q, d)
    requires forall i :: 0 <= i < |c| ==> ':' !in c[i].minerId && ':' !in d[i].minerId
    requires Tip(p, c) == Tip(q, d)
    requires NoCollision(hash, p, c, q, d)
    ensures SameBlocks(p, c, q, d)
  {
    forall i | 0 <= i < |c| ensures IdsApart(c[i].minerId, d[i].minerId) {
      ColonFreeIdsAreApart(c[i].minerId, d[i].minerId);
    }
    SameTipSameChain(hash, p, c, q, d);
  }

  lemma SameBlocksExtend(p: string, c: seq<BlockHeader>, q: string, d: seq<BlockHeader>)
    requires |c| == |d| > 0
    requires SameBlocks(p, c[..|c| - 1], q, d[..|d| - 1])
    requires c[|c| - 1].hash == d[|d| - 1].hash && c[|c| - 1].round == d[|d| - 1].round
    requires c[|c| - 1].minerId == d[|d| - 1].minerId
    ensures SameBlocks(p, c, q, d)
  {
    var m := |c| - 1;
    assert forall i :: 0 <= i < m ==> c[i] == c[..m][i] && d[i] == d[..m][i];
  }

  lemma NoCollisionInPrefix(hash: HashFunction, p: string, c: seq<BlockHeader>, q: string, d: seq<BlockHeader>)
    requires |c| == |d| > 0
    requires NoCollision(hash, p, c, q, d)
    ensures NoCollision(hash, p, c[..|c| - 1], q, d[..|d| - 1])
  {
    var c', d' := c[..|c| - 1], d[..|d| - 1];
    forall i: nat | i < |c'| ensures !Collision(hash, p, c', q, d', i) {
      PrefixCollision(hash, p, c, q, d, i);
    }
  }

  lemma PrefixCollision(hash: HashFunction, p: string, c: seq<BlockHeader>, q: string, d: seq<BlockHeader>, i: nat)
    requires |c| == |d| && i + 1 < |c|
    ensures Collision(hash, p, c[..|c| - 1], q, d[..|d| - 1], i) <==> Collision(hash, p, c, q, d, i)
  {
    var m := |c| - 1;
    assert PrevHash(p, c[..m], i) == PrevHash(p, c, i) && PrevHash(q, d[..m], i) == PrevHash(q, d, i);
  }

  lemma SameTipStep(hash: HashFunction, p: string, c: seq<BlockHeader>, q: string, d: seq<BlockHeader>)
    requires |c| == |d| > 0
    requires Linked(hash, p, c) && Linked(hash, q, d)
    requires ColonFree(p, c) && ColonFree(q, d) && MinersApart(c, d)
    requires Tip(p, c) == Tip(q, d)
    requires !Collision(hash, p, c, q, d, |c| - 1)
    ensures var m := |c| - 1;
            && ColonFree(p, c[..m]) && ColonFree(q, d[..m]) && MinersApart(c[..m], d[..m])
            && Tip(p, c[..m]) == Tip(q, d[..m])
            && c[m].hash == d[m].hash && c[m].round == d[m].round && c[m].minerId == d[m].minerId
  {
    var m := |c| - 1;
    assert PrevHash(p, c, m) == Tip(p, c[..m]) && PrevHash(q, d, m) == Tip(q, d[..m]);
    HashInputDetermines(PrevHash(p, c, m), c[m], PrevHash(q, d, m), d[m]);
  }
}
