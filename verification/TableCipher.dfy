/** The `table` cipher of src/crypto/table.rs. */
module TableCipher {
  import opened Bytes
  import KeyDerivation
  import Nonce

  const TABLE_SIZE := 256

  /** What round `i` sorts by; `a` is the first half of the key digest as an integer. */
  function Rank(a: nat, i: nat, x: nat): (r: nat)
    requires i >= 1
  {
    a % (x + i)
  }

  ghost predicate SortedByRank(a: nat, i: nat, s: seq<nat>)
    requires i >= 1
  {
    forall j, k :: 0 <= j < k < |s| ==> Rank(a, i, s[j]) <= Rank(a, i, s[k])
  }

  /** The elements of one rank, in order. */
  function OfRank(a: nat, i: nat, s: seq<nat>, r: nat): (t: seq<nat>)
    requires i >= 1
  {
    if s == [] then []
    else (if Rank(a, i, s[0]) == r then [s[0]] else []) + OfRank(a, i, s[1..], r)
  }

  /** `t` holds what `s` holds, sorted, and elements of equal rank keep their order. */
  ghost predicate IsStableSort(a: nat, i: nat, s: seq<nat>, t: seq<nat>)
    requires i >= 1
  {
    SortedByRank(a, i, t) && forall r :: OfRank(a, i, t, r) == OfRank(a, i, s, r)
  }

  lemma {:induction false} OfRankNonEmpty(a: nat, i: nat, s: seq<nat>, k: nat)
    requires i >= 1 && k < |s|
    ensures OfRank(a, i, s, Rank(a, i, s[k])) != []
  {
    if k > 0 {
      OfRankNonEmpty(a, i, s[1..], k - 1);
    }
  }

  lemma {:induction false} OfRankFrom(a: nat, i: nat, s: seq<nat>, r: nat) returns (k: nat)
    requires i >= 1 && OfRank(a, i, s, r) != []
    ensures k < |s| && Rank(a, i, s[k]) == r
  {
    if Rank(a, i, s[0]) == r {
      k := 0;
    } else {
      k := OfRankFrom(a, i, s[1..], r);
      k := k + 1;
    }
  }

  /** The first element of a sorted list has the least rank that occurs. */
  lemma FirstIsLeast(a: nat, i: nat, s: seq<nat>, r: nat)
    requires i >= 1 && SortedByRank(a, i, s) && OfRank(a, i, s, r) != []
    ensures s != [] && Rank(a, i, s[0]) <= r
  {
    var k := OfRankFrom(a, i, s, r);
  }

  /** A stable sort has one result. */
  lemma {:induction false} StableSortUnique(a: nat, i: nat, s: seq<nat>, t: seq<nat>)
    requires i >= 1 && SortedByRank(a, i, s) && SortedByRank(a, i, t)
    requires forall r :: OfRank(a, i, s, r) == OfRank(a, i, t, r)
    ensures s == t
  {
    if s == [] {
      if t != [] {
        OfRankNonEmpty(a, i, t, 0);
      }
    } else {
      OfRankNonEmpty(a, i, s, 0);
      FirstIsLeast(a, i, t, Rank(a, i, s[0]));
      OfRankNonEmpty(a, i, t, 0);
      FirstIsLeast(a, i, s, Rank(a, i, t[0]));
      var r := Rank(a, i, s[0]);
      assert OfRank(a, i, s, r)[0] == s[0] && OfRank(a, i, t, r)[0] == t[0];
      forall q
        ensures OfRank(a, i, s[1..], q) == OfRank(a, i, t[1..], q)
      {
        Tails(a, i, s, t, q);
      }
      StableSortUnique(a, i, s[1..], t[1..]);
      assert s == [s[0]] + s[1..] && t == [t[0]] + t[1..];
    }
  }

  lemma Tails(a: nat, i: nat, s: seq<nat>, t: seq<nat>, q: nat)
    requires i >= 1 && s != [] && t != [] && s[0] == t[0]
    requires OfRank(a, i, s, q) == OfRank(a, i, t, q)
    ensures OfRank(a, i, s[1..], q) == OfRank(a, i, t[1..], q)
  {
    hide Rank;
    var x, y := OfRank(a, i, s[1..], q), OfRank(a, i, t[1..], q);
    if Rank(a, i, s[0]) == q {
      assert ([s[0]] + x)[1..] == x && ([t[0]] + y)[1..] == y;
    } else {
      assert [] + x == x && [] + y == y;
    }
  }

  /** Insertion in front of the first element that does not rank lower. */
  function Insert(a: nat, i: nat, x: nat, s: seq<nat>): (t: seq<nat>)
    requires i >= 1
    ensures |t| == |s| + 1
  {
    if s == [] || Rank(a, i, x) <= Rank(a, i, s[0]) then [x] + s
    else [s[0]] + Insert(a, i, x, s[1..])
  }

  function StableSort(a: nat, i: nat, s: seq<nat>): (t: seq<nat>)
    requires i >= 1
    ensures |t| == |s|
  {
    if s == [] then [] else Insert(a, i, s[0], StableSort(a, i, s[1..]))
  }

  lemma {:induction false} InsertOfRank(a: nat, i: nat, x: nat, s: seq<nat>, r: nat)
    requires i >= 1 && SortedByRank(a, i, s)
    ensures OfRank(a, i, Insert(a, i, x, s), r) ==
            (if Rank(a, i, x) == r then [x] else []) + OfRank(a, i, s, r)
  {
    var t := Insert(a, i, x, s);
    if s == [] || Rank(a, i, x) <= Rank(a, i, s[0]) {
      assert t[0] == x && t[1..] == s;
    } else {
      assert t[0] == s[0] && t[1..] == Insert(a, i, x, s[1..]);
      InsertOfRank(a, i, x, s[1..], r);
      if Rank(a, i, x) == r && OfRank(a, i, s, r) != [] && Rank(a, i, s[0]) == r {
        assert false;
      }
    }
  }

  lemma {:induction false} InsertSorted(a: nat, i: nat, x: nat, s: seq<nat>)
    requires i >= 1 && SortedByRank(a, i, s)
    ensures SortedByRank(a, i, Insert(a, i, x, s))
    ensures forall k :: 0 <= k < |s| + 1 ==> Insert(a, i, x, s)[k] == x || Insert(a, i, x, s)[k] in s
  {
    if s != [] && Rank(a, i, x) > Rank(a, i, s[0]) {
      InsertSorted(a, i, x, s[1..]);
      var u := Insert(a, i, x, s[1..]);
      assert forall k :: 0 <= k < |u| ==> Rank(a, i, s[0]) <= Rank(a, i, u[k]);
      assert Insert(a, i, x, s) == [s[0]] + u;
    }
  }

  lemma {:induction false} StableSortIs(a: nat, i: nat, s: seq<nat>)
    requires i >= 1
    ensures IsStableSort(a, i, s, StableSort(a, i, s))
  {
    if s != [] {
      var u := StableSort(a, i, s[1..]);
      StableSortIs(a, i, s[1..]);
      InsertSorted(a, i, s[0], u);
      forall r
        ensures OfRank(a, i, Insert(a, i, s[0], u), r) == OfRank(a, i, s, r)
      {
        InsertOfRank(a, i, s[0], u, r);
      }
    }
  }

  lemma {:induction false} CountOfRank(a: nat, i: nat, s: seq<nat>, x: nat)
    requires i >= 1
    ensures multiset(s)[x] == multiset(OfRank(a, i, s, Rank(a, i, x)))[x]
  {
    if s != [] {
      CountOfRank(a, i, s[1..], x);
      assert s == [s[0]] + s[1..];
    }
  }

  /** A stable sort moves elements around and nothing else. */
  lemma StableSortPermutes(a: nat, i: nat, s: seq<nat>, t: seq<nat>)
    requires i >= 1 && IsStableSort(a, i, s, t)
    ensures multiset(t) == multiset(s)
  {
    forall x
      ensures multiset(t)[x] == multiset(s)[x]
    {
      CountOfRank(a, i, s, x);
      CountOfRank(a, i, t, x);
    }
  }

  /** The table after the rounds `1 .. i - 1`. */
  function Shuffled(a: nat, i: nat): (t: seq<nat>)
    requires i >= 1
    ensures |t| == TABLE_SIZE
  {
    if i == 1 then seq(TABLE_SIZE, k requires 0 <= k < TABLE_SIZE => k)
    else StableSort(a, i - 1, Shuffled(a, i - 1))
  }

  /** A permutation of 0 .. 255. */
  ghost predicate IsPermutation(t: seq<nat>)
  {
    |t| == TABLE_SIZE && multiset(t) == multiset(Shuffled(0, 1))
  }

  lemma {:induction false} ShuffledIsPermutation(a: nat, i: nat)
    requires i >= 1
    ensures IsPermutation(Shuffled(a, i))
  {
    if i > 1 {
      ShuffledIsPermutation(a, i - 1);
      StableSortIs(a, i - 1, Shuffled(a, i - 1));
      StableSortPermutes(a, i - 1, Shuffled(a, i - 1), Shuffled(a, i));
    }
  }

  function Identity(n: nat): (s: seq<nat>)
    ensures |s| == n
  {
    seq(n, k requires 0 <= k < n => k)
  }

  lemma {:induction false} IdentityCounts(n: nat, x: nat)
    ensures multiset(Identity(n))[x] == if x < n then 1 else 0
  {
    if n > 0 {
      IdentityCounts(n - 1, x);
      assert Identity(n) == Identity(n - 1) + [n - 1];
    }
  }

  lemma CountTwice(t: seq<nat>, j: nat, k: nat)
    requires j < k < |t| && t[j] == t[k]
    ensures multiset(t)[t[j]] >= 2
  {
    assert t == t[..k] + t[k..];
    assert t[j] in t[..k] && t[k] in t[k..];
    assert multiset(t) == multiset(t[..k]) + multiset(t[k..]);
  }

  /** What a permutation gives the two directions of the cipher. */
  lemma PermutationFacts(t: seq<nat>)
    requires IsPermutation(t)
    ensures forall k :: 0 <= k < TABLE_SIZE ==> t[k] < TABLE_SIZE
    ensures forall j, k :: 0 <= j < k < TABLE_SIZE ==> t[j] != t[k]
  {
    assert Shuffled(0, 1) == Identity(TABLE_SIZE);
    forall k | 0 <= k < TABLE_SIZE
      ensures t[k] < TABLE_SIZE
    {
      IdentityCounts(TABLE_SIZE, t[k]);
      assert t[k] in multiset(t);
    }
    forall j, k | 0 <= j < k < TABLE_SIZE
      ensures t[j] != t[k]
    {
      if t[j] == t[k] {
        CountTwice(t, j, k);
        IdentityCounts(TABLE_SIZE, t[j]);
      }
    }
  }

  /** Some occurrence of `x` stands before one of `y`. */
  ghost predicate Before(s: seq<nat>, x: nat, y: nat)
  {
    exists p, q :: 0 <= p < q < |s| && s[p] == x && s[q] == y
  }

  lemma BeforeCons(h: nat, s: seq<nat>, x: nat, y: nat)
    ensures Before([h] + s, x, y) <==> (h == x && y in s) || Before(s, x, y)
  {
    var t := [h] + s;
    if h == x && y in s {
      var q :| 0 <= q < |s| && s[q] == y;
      assert t[0] == x && t[q + 1] == y;
    } else if Before(s, x, y) {
      var p, q :| 0 <= p < q < |s| && s[p] == x && s[q] == y;
      assert t[p + 1] == x && t[q + 1] == y;
    }
    if Before(t, x, y) {
      var p, q :| 0 <= p < q < |t| && t[p] == x && t[q] == y;
      assert s[q - 1] == y;
      assert p > 0 ==> s[p - 1] == x;
    }
  }

  /** The order of two elements of one rank is their order among the elements of that rank. */
  lemma {:induction false} OfRankOrder(a: nat, i: nat, s: seq<nat>, x: nat, y: nat)
    requires i >= 1 && Rank(a, i, x) == Rank(a, i, y)
    ensures y in s <==> y in OfRank(a, i, s, Rank(a, i, x))
    ensures Before(s, x, y) <==> Before(OfRank(a, i, s, Rank(a, i, x)), x, y)
  {
    hide Rank, Before;
    if s == [] {
      assert OfRank(a, i, s, Rank(a, i, x)) == s;
    } else {
      var r, tail := Rank(a, i, x), OfRank(a, i, s[1..], Rank(a, i, x));
      OfRankOrder(a, i, s[1..], x, y);
      assert s == [s[0]] + s[1..];
      BeforeCons(s[0], s[1..], x, y);
      BeforeCons(s[0], tail, x, y);
      assert [] + tail == tail;
    }
  }

  /**
   What one round does to a table: the same numbers, by their remainders under the first half of
   the digest, and numbers of equal remainder in the order they had.
   */
  ghost predicate IsRound(a: nat, i: nat, t: seq<nat>, u: seq<nat>)
    requires i >= 1
  {
    && multiset(u) == multiset(t)
    && forall j, k :: 0 <= j < k < |u| ==>
         a % (u[j] + i) <= a % (u[k] + i) && (a % (u[j] + i) == a % (u[k] + i) ==> Before(t, u[j], u[k]))
  }

  lemma SortIsRound(a: nat, i: nat, t: seq<nat>, u: seq<nat>)
    requires i >= 1 && IsStableSort(a, i, t, u)
    ensures IsRound(a, i, t, u)
  {
    StableSortPermutes(a, i, t, u);
    forall j, k | 0 <= j < k < |u|
      ensures a % (u[j] + i) <= a % (u[k] + i)
      ensures a % (u[j] + i) == a % (u[k] + i) ==> Before(t, u[j], u[k])
    {
      assert Rank(a, i, u[j]) <= Rank(a, i, u[k]);
      if Rank(a, i, u[j]) == Rank(a, i, u[k]) {
        OfRankOrder(a, i, t, u[j], u[k]);
        OfRankOrder(a, i, u, u[j], u[k]);
        assert Before(u, u[j], u[k]);
      }
    }
  }

  /** The tables of a whole shuffle: from the numbers in order, through the rounds 1 .. 1023. */
  ghost predicate IsShuffle(a: nat, tables: seq<seq<nat>>)
  {
    && |tables| == 1024
    && |tables[0]| == 256 && (forall k :: 0 <= k < 256 ==> tables[0][k] == k)
    && forall i :: 1 <= i < 1024 ==> IsRound(a, i, tables[i - 1], tables[i])
  }

  /** The library's stable sort, in place. */
  method SortBy(table: array<nat>, a: nat, i: nat)
    requires i >= 1
    modifies table
    ensures IsStableSort(a, i, old(table[..]), table[..]) && IsRound(a, i, old(table[..]), table[..])
  {
    var t := StableSort(a, i, table[..]);
    StableSortIs(a, i, table[..]);
    for k := 0 to table.Length
      invariant table[..k] == t[..k]
    {
      table[k] := t[k];
    }
    assert table[..] == t;
    SortIsRound(a, i, old(table[..]), t);
  }

  /** The 1023 rounds: the table stays a permutation, and every build gives the same one. */
  method Shuffle(a: nat) returns (table: array<nat>, ghost tables: seq<seq<nat>>)
    ensures fresh(table) && table[..] == Shuffled(a, 1024) && IsPermutation(table[..])
    ensures IsShuffle(a, tables) && table[..] == tables[1023]
  {
    hide StableSort, IsStableSort, IsPermutation, IsRound;
    table := new nat[TABLE_SIZE](k => k);
    assert table[..] == Shuffled(a, 1);
    tables := [table[..]];
    for i := 1 to 1024
      invariant table[..] == Shuffled(a, i)
      invariant |tables| == i && tables[i - 1] == table[..]
      invariant |tables[0]| == 256 && forall k :: 0 <= k < 256 ==> tables[0][k] == k
      invariant forall j :: 1 <= j < i ==> IsRound(a, j, tables[j - 1], tables[j])
    {
      ghost var before := table[..];
      SortBy(table, a, i);
      StableSortIs(a, i, before);
      SameSort(a, i, before, table[..], StableSort(a, i, before));
      tables := tables + [table[..]];
    }
    ShuffledIsPermutation(a, 1024);
  }

  lemma SameSort(a: nat, i: nat, s: seq<nat>, t: seq<nat>, u: seq<nat>)
    requires i >= 1 && IsStableSort(a, i, s, t) && IsStableSort(a, i, s, u)
    ensures t == u
  {
    StableSortUnique(a, i, t, u);
  }

  datatype CryptoMode = Encrypt | Decrypt

  /** The number a key is sorted by: the first half of its digest, little-endian. */
  function KeyNumber(md5: seq<byte> -> seq<byte>, key: seq<byte>): (a: nat)
    requires KeyDerivation.Digests(md5)
  {
    Nonce.Value(md5(key)[..8])
  }

  /** The byte table of one direction, built from its own shuffle. */
  class TableCipher {
    const table: array<byte>
    ghost const tables: seq<seq<nat>>

    constructor (md5: seq<byte> -> seq<byte>, key: seq<byte>, mode: CryptoMode)
      requires KeyDerivation.Digests(md5)
      ensures fresh(table) && table.Length == TABLE_SIZE
      ensures var a := Nonce.Value(md5(key)[..8]);
              && IsShuffle(a, tables) && tables[1023] == Shuffled(a, 1024) && IsPermutation(tables[1023])
              && (mode.Encrypt? ==> forall k :: 0 <= k < TABLE_SIZE ==> table[k] == tables[1023][k])
              && (mode.Decrypt? ==> forall k :: 0 <= k < TABLE_SIZE ==>
                    0 <= tables[1023][k] < TABLE_SIZE && table[tables[1023][k]] == k)
    {
      var order, rounds := Shuffle(KeyNumber(md5, key));
      ghost var s := order[..];
      PermutationFacts(s);
      var t := new byte[TABLE_SIZE](_ => 0);
      if mode == Encrypt {
        for k := 0 to TABLE_SIZE
          invariant order[..] == s && forall j :: 0 <= j < k ==> t[j] == s[j]
        {
          t[k] := order[k];
        }
      } else {
        for k := 0 to TABLE_SIZE
          invariant order[..] == s && forall j :: 0 <= j < k ==> t[s[j]] == j
        {
          t[order[k]] := k;
        }
      }
      table, tables := t, rounds;
    }

    method Process(data: seq<byte>) returns (out: seq<byte>)
      requires table.Length == TABLE_SIZE
      ensures |out| == |data| && forall k :: 0 <= k < |data| ==> out[k] == table[data[k]]
    {
      var buf := new byte[|data|](_ => 0);
      for k := 0 to |data|
        invariant forall j :: 0 <= j < k ==> buf[j] == table[data[j]]
      {
        buf[k] := table[data[k]];
      }
      out := buf[..];
    }
  }

  /**
   Decrypting undoes encrypting, for every digest, key and message; what is sent is looked up in
   the last table of the key's shuffle.
   */
  method RoundTrip(md5: seq<byte> -> seq<byte>, key: seq<byte>, message: seq<byte>)
    returns (sent: seq<byte>, received: seq<byte>, ghost tables: seq<seq<nat>>)
    requires KeyDerivation.Digests(md5)
    ensures |sent| == |message| && received == message
    ensures IsShuffle(Nonce.Value(md5(key)[..8]), tables) && IsPermutation(tables[1023])
    ensures forall k :: 0 <= k < |message| ==> sent[k] == tables[1023][message[k]]
  {
    hide IsShuffle;
    var enc := new TableCipher(md5, key, Encrypt);
    var dec := new TableCipher(md5, key, Decrypt);
    tables := enc.tables;
    sent := enc.Process(message);
    received := dec.Process(sent);
  }
}
