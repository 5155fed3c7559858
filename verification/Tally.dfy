/** Counting votes. Each reply casts one ballot, for some key or for none; the count of a key is its
    multiplicity among the ballots, which no order of arrival can change. */
module Tally {
  import opened Support

  type Ballots<K> = seq<Option<K>>

  function Count<K(==)>(ballots: Ballots<K>, k: K): nat {
    multiset(ballots)[Some(k)]
  }

  lemma CountStep<K>(ballots: Ballots<K>, i: nat, k: K)
    requires i < |ballots|
    ensures Count(ballots[..i + 1], k) == Count(ballots[..i], k) + (if ballots[i] == Some(k) then 1 else 0)
  {
    assert ballots[..i + 1] == ballots[..i] + [ballots[i]];
  }

  lemma CountAppend<K>(a: Ballots<K>, b: Ballots<K>, k: K)
    ensures Count(a + b, k) == Count(a, k) + Count(b, k)
  {
  }

  function Indices<K(==)>(ballots: Ballots<K>, k: K): set<nat> {
    set i: nat | 0 <= i < |ballots| && ballots[i] == Some(k)
  }

  /** The count is the number of replies that vote for the key. */
  lemma {:induction false} CountIsIndices<K>(ballots: Ballots<K>, k: K)
    ensures Count(ballots, k) == |Indices(ballots, k)|
  {
    if ballots == [] {
      assert Indices(ballots, k) == {};
    } else {
      var m := |ballots| - 1;
      CountIsIndices(ballots[..m], k);
      CountStep(ballots, m, k);
      assert ballots[..m + 1] == ballots;
      if ballots[m] == Some(k) {
        assert Indices(ballots, k) == Indices(ballots[..m], k) + {m};
      } else {
        assert Indices(ballots, k) == Indices(ballots[..m], k);
      }
    }
  }

  /** A key with a vote was voted for by some reply. */
  lemma Voter<K>(ballots: Ballots<K>, k: K) returns (i: nat)
    requires Count(ballots, k) > 0
    ensures i < |ballots| && ballots[i] == Some(k)
  {
    assert Some(k) in ballots;
    i :| i < |ballots| && ballots[i] == Some(k);
  }

  ghost predicate Cast<T, K>(replies: seq<T>, key: T -> Option<K>, ballots: Ballots<K>) {
    |ballots| == |replies| && forall i :: 0 <= i < |replies| ==> ballots[i] == key(replies[i])
  }

  function Drop<T>(s: seq<T>, i: nat): (r: seq<T>)
    requires i < |s|
    ensures |r| == |s| - 1
  {
    s[..i] + s[i + 1..]
  }

  lemma TakeOut<T>(s: seq<T>, i: nat)
    requires i < |s|
    ensures multiset(s) == multiset(Drop(s, i)) + multiset{s[i]}
    ensures multiset(Drop(s, i)) == multiset(s) - multiset{s[i]}
  {
    assert s == s[..i] + [s[i]] + s[i + 1..];
  }

  lemma CastDrop<T, K>(replies: seq<T>, key: T -> Option<K>, ballots: Ballots<K>, i: nat)
    requires Cast(replies, key, ballots)
    requires i < |replies|
    ensures Cast(Drop(replies, i), key, Drop(ballots, i))
  {
  }

  /** Casting a ballot per reply turns a permutation of replies into a permutation of ballots. */
  lemma {:induction false} PermutedBallots<T, K>(a: seq<T>, b: seq<T>, key: T -> Option<K>,
                                           x: Ballots<K>, y: Ballots<K>)
    requires multiset(a) == multiset(b)
    requires Cast(a, key, x) && Cast(b, key, y)
    ensures multiset(x) == multiset(y)
    decreases |a|
  {
    assert |a| == |multiset(a)| == |multiset(b)| == |b|;
    if a != [] {
      assert a[0] in multiset(b);
      var j :| 0 <= j < |b| && b[j] == a[0];
      CastDrop(a, key, x, 0);
      CastDrop(b, key, y, j);
      assert multiset(Drop(a, 0)) == multiset(Drop(b, j)) by {
        TakeOut(a, 0);
        TakeOut(b, j);
      }
      PermutedBallots(Drop(a, 0), Drop(b, j), key, Drop(x, 0), Drop(y, j));
      TakeOut(x, 0);
      TakeOut(y, j);
    }
  }

  // ----- running tables -----

  /** A table of counters that agrees with the count, and an upper bound on it. */
  ghost predicate Tallied<K(!new)>(ballots: Ballots<K>, table: map<K, nat>, most: nat) {
    && (forall k :: Count(ballots, k) == if k in table then table[k] else 0)
    && AtMost(ballots, most)
  }

  ghost predicate AtMost<K(!new)>(ballots: Ballots<K>, most: nat) {
    forall k :: Count(ballots, k) <= most
  }

  function Bumped<K>(table: map<K, nat>, k: K): nat {
    1 + if k in table then table[k] else 0
  }

  /** Counting one vote and raising the maximum when it is exceeded keeps the table right. */
  lemma TallyVote<K(!new)>(ballots: Ballots<K>, table: map<K, nat>, most: nat, i: nat, k: K)
    requires i < |ballots|
    requires Tallied(ballots[..i], table, most)
    requires ballots[i] == Some(k)
    ensures Count(ballots[..i + 1], k) == Bumped(table, k)
    ensures Tallied(ballots[..i + 1], table[k := Bumped(table, k)],
                    if Bumped(table, k) > most then Bumped(table, k) else most)
  {
    var next, bumped := ballots[..i + 1], table[k := Bumped(table, k)];
    CountStep(ballots, i, k);
    forall x
      ensures Count(next, x) == if x in bumped then bumped[x] else 0
      ensures Count(next, x) <= if Bumped(table, k) > most then Bumped(table, k) else most
    {
      CountStep(ballots, i, x);
      var was := Count(ballots[..i], x);
    }
  }

  lemma TallySkip<K(!new)>(ballots: Ballots<K>, table: map<K, nat>, most: nat, i: nat)
    requires i < |ballots|
    requires Tallied(ballots[..i], table, most)
    requires ballots[i].None?
    ensures Tallied(ballots[..i + 1], table, most)
  {
    var next := ballots[..i + 1];
    forall x
      ensures Count(next, x) == if x in table then table[x] else 0
      ensures Count(next, x) <= most
    {
      CountStep(ballots, i, x);
      var was := Count(ballots[..i], x);
    }
  }

  // ----- polls -----

  /** A vote for a key, with what is kept if it makes that key the front-runner. */
  datatype Vote<T> = Vote(key: string, value: T)

  type Votes<T> = seq<Option<Vote<T>>>

  function KeyOf<T>(v: Option<Vote<T>>): Option<string> {
    if v.Some? then Some(v.value.key) else None
  }

  function Keys<T>(votes: Votes<T>): (b: Ballots<string>)
    ensures |b| == |votes|
    ensures forall i :: 0 <= i < |votes| ==> b[i] == KeyOf(votes[i])
  {
    seq(|votes|, i requires 0 <= i < |votes| => KeyOf(votes[i]))
  }

  /** A running poll: counters, their maximum, and the value of the vote that last raised the maximum
      to at least the threshold. */
  datatype Poll<T> = Poll(table: map<string, nat>, most: nat, held: Option<T>)

  function EmptyPoll<T>(): Poll<T> {
    Poll(map[], 0, None)
  }

  function CastVote<T>(p: Poll<T>, vote: Option<Vote<T>>, threshold: int): Poll<T> {
    if vote.None? then p
    else
      var n := Bumped(p.table, vote.value.key);
      var table := p.table[vote.value.key := n];
      if n <= p.most then p.(table := table)
      else if n >= threshold then Poll(table, n, Some(vote.value.value))
      else p.(table := table, most := n)
  }

  /** The i-th vote is for a key with the most votes, and carries this value. */
  ghost predicate Front<T>(votes: Votes<T>, i: nat, most: nat, value: T) {
    && i < |votes| && votes[i].Some? && votes[i].value.value == value
    && Count(Keys(votes), votes[i].value.key) == most
  }

  ghost predicate Polled<T>(votes: Votes<T>, p: Poll<T>, threshold: int) {
    && Tallied(Keys(votes), p.table, p.most)
    && (p.most == 0 <==> forall i :: 0 <= i < |votes| ==> votes[i].None?)
    && (p.held.Some? <==> p.most > 0 && p.most >= threshold)
    && (p.held.Some? ==> exists i: nat :: Front(votes, i, p.most, p.held.value))
  }

  /** Every vote keeps the poll right. */
  lemma CastKeepsPolled<T>(votes: Votes<T>, p: Poll<T>, vote: Option<Vote<T>>, threshold: int)
    requires Polled(votes, p, threshold)
    ensures Polled(votes + [vote], CastVote(p, vote, threshold), threshold)
  {
    var all, p' := votes + [vote], CastVote(p, vote, threshold);
    var i := |votes|;
    assert Keys(all)[..i] == Keys(votes) && Keys(all)[..i + 1] == Keys(all);
    assert all[i] == vote;
    if vote.None? {
      TallySkip(Keys(all), p.table, p.most, i);
      FrontStays(votes, p, vote);
    } else {
      TallyVote(Keys(all), p.table, p.most, i, vote.value.key);
      if p'.most == p.most {
        FrontStays(votes, p, vote);
      } else if p'.held.Some? {
        assert Front(all, i, p'.most, p'.held.value);
      }
    }
    assert forall j :: 0 <= j < i ==> all[j] == votes[j];
  }

  lemma FrontStays<T>(votes: Votes<T>, p: Poll<T>, vote: Option<Vote<T>>)
    requires p.held.Some? ==> exists i: nat :: Front(votes, i, p.most, p.held.value)
    requires AtMost(Keys(votes + [vote]), p.most)
    ensures p.held.Some? ==> exists i: nat :: Front(votes + [vote], i, p.most, p.held.value)
  {
    if p.held.Some? {
      var i: nat :| Front(votes, i, p.most, p.held.value);
      var all := votes + [vote];
      CountStep(Keys(all), |votes|, votes[i].value.key);
      assert Keys(all)[..|votes|] == Keys(votes) && Keys(all)[..|votes| + 1] == Keys(all);
      assert Front(all, i, p.most, p.held.value);
    }
  }
}
