/** The replay memory: `PingPongBloom` and `Context::check_nonce_and_set` of src/context.rs. */
module Replay {
  import opened Bytes

  type Nonce = seq<byte>

  /**
   A Bloom filter answers for the items set since its last clear, and possibly for others: its
   answer is any function of that set and the queried item without false negatives.
   */
  type Filter = (set<Nonce>, Nonce) -> bool

  ghost predicate NoFalseNegatives(hit: Filter)
  {
    forall s, x :: x in s ==> hit(s, x)
  }

  ghost predicate NoFalsePositives(hit: Filter)
  {
    forall s, x :: hit(s, x) ==> x in s
  }

  ghost function Elems(s: seq<Nonce>): (e: set<Nonce>)
  {
    set x | x in s
  }

  /** The last `n` elements. */
  ghost function Last<T>(s: seq<T>, n: nat): (t: seq<T>)
  {
    if n >= |s| then s else s[|s| - n..]
  }

  /** The items of the two filters. */
  datatype Generations = Generations(older: seq<Nonce>, newer: seq<Nonce>)

  /** What two filters of capacity `n` hold after the items `a` were set in turn. */
  ghost function Held(n: nat, a: seq<Nonce>): (g: Generations)
  {
    if a == [] then Generations([], [])
    else
      var g, x := Held(n, a[..|a| - 1]), a[|a| - 1];
      if |g.newer| >= n then Generations(g.newer, [x]) else Generations(g.older, g.newer + [x])
  }

  /** Whether one of the filters answers for `x`. */
  ghost predicate Hits(hit: Filter, g: Generations, x: Nonce)
  {
    hit(Elems(g.older), x) || hit(Elems(g.newer), x)
  }

  /** Whether `x` is reported once `a` was accepted. The empty nonce of the plain ciphers never is. */
  ghost predicate Reported(hit: Filter, n: nat, a: seq<Nonce>, x: Nonce)
  {
    x != [] && Hits(hit, Held(n, a), x)
  }

  /** The nonces accepted once `a` was accepted and `nonces` were shown. */
  ghost function Accept(hit: Filter, n: nat, a: seq<Nonce>, nonces: seq<Nonce>): (b: seq<Nonce>)
  {
    if nonces == [] then a
    else
      var b, x := Accept(hit, n, a, nonces[..|nonces| - 1]), nonces[|nonces| - 1];
      if x == [] || Reported(hit, n, b, x) then b else b + [x]
  }

  lemma AcceptUpTo(hit: Filter, n: nat, a: seq<Nonce>, nonces: seq<Nonce>, k: nat)
    requires k < |nonces|
    ensures var b, x := Accept(hit, n, a, nonces[..k]), nonces[k];
            Accept(hit, n, a, nonces[..k + 1]) == if x == [] || Reported(hit, n, b, x) then b else b + [x]
  {
    hide Reported;
    assert nonces[..k + 1][..k] == nonces[..k];
  }

  lemma AcceptOne(hit: Filter, n: nat, a: seq<Nonce>, x: Nonce)
    ensures Accept(hit, n, a, [x]) == if x == [] || Reported(hit, n, a, x) then a else a + [x]
  {
    hide Reported;
    assert [x][..0] == [];
  }

  /** Accepting only adds, and only what was shown. */
  lemma {:induction false} AcceptGrows(hit: Filter, n: nat, a: seq<Nonce>, nonces: seq<Nonce>)
    ensures a <= Accept(hit, n, a, nonces)
    ensures forall x :: x in Accept(hit, n, a, nonces) ==> x in a || x in nonces
  {
    hide Reported;
    if nonces != [] {
      AcceptGrows(hit, n, a, nonces[..|nonces| - 1]);
    }
  }

  lemma HeldSnoc(n: nat, a: seq<Nonce>, x: Nonce)
    ensures var g := Held(n, a);
            Held(n, a + [x]) == if |g.newer| >= n then Generations(g.newer, [x])
              else Generations(g.older, g.newer + [x])
  {
    assert (a + [x])[..|a|] == a;
  }

  /** What was accepted is what was forgotten and then what is held. */
  lemma {:induction false} Forgotten(n: nat, a: seq<Nonce>) returns (gone: seq<Nonce>)
    requires n >= 1
    ensures var g := Held(n, a);
            && |g.older| <= n && |g.newer| <= n && a == gone + (g.older + g.newer)
            && (|g.older| == n || (g.older == [] && gone == [])) && (a != [] ==> g.newer != [])
  {
    gone := [];
    if a != [] {
      var b, x := a[..|a| - 1], a[|a| - 1];
      gone := Forgotten(n, b);
      var g := Held(n, b);
      assert a == b + [x];
      HeldSnoc(n, b, x);
      hide Held;
      Regroup(gone, g.older, g.newer, [x]);
      if |g.newer| >= n {
        gone := gone + g.older;
      }
    }
  }

  lemma Regroup(a: seq<Nonce>, b: seq<Nonce>, c: seq<Nonce>, d: seq<Nonce>)
    ensures (a + (b + c)) + d == (a + b) + (c + d) == a + (b + (c + d))
  {
  }

  /**
   The items held are exactly the last accepted ones: at least the last `n + 1` of them, or all,
   and at most `n` in each filter.
   */
  lemma HoldsTheLast(n: nat, a: seq<Nonce>)
    requires n >= 1
    ensures var g := Held(n, a);
            && |g.older| <= n && |g.newer| <= n
            && g.older + g.newer == Last(a, |g.older| + |g.newer|)
            && (g.older + g.newer == a || |g.older| + |g.newer| >= n + 1)
  {
    var gone := Forgotten(n, a);
    hide Held;
    var g := Held(n, a);
    assert gone == [] ==> gone + (g.older + g.newer) == g.older + g.newer;
  }

  /** Whatever is among the last `n + 1` accepted items is reported. */
  lemma RecentIsReported(hit: Filter, n: nat, a: seq<Nonce>, x: Nonce)
    requires NoFalseNegatives(hit) && n >= 1 && x != [] && x in Last(a, n + 1)
    ensures Reported(hit, n, a, x)
  {
    hide Held, Last;
    var g := Held(n, a);
    HoldsTheLast(n, a);
    if g.older + g.newer == a {
      LastIn(a, n + 1, x);
    } else {
      LastGrows(a, n + 1, |g.older| + |g.newer|, x);
    }
    assert x in g.older || x in g.newer;
    assert x in Elems(g.older) || x in Elems(g.newer);
  }

  /** With exact filters, only one of the last `2 n` accepted items is reported. */
  lemma ReportedIsRecent(hit: Filter, n: nat, a: seq<Nonce>, x: Nonce)
    requires NoFalsePositives(hit) && n >= 1 && Reported(hit, n, a, x)
    ensures x in Last(a, 2 * n)
  {
    hide Held, Last;
    var g := Held(n, a);
    HoldsTheLast(n, a);
    assert x in Elems(g.older) || x in Elems(g.newer);
    assert x in g.older + g.newer;
    LastGrows(a, |g.older| + |g.newer|, 2 * n, x);
  }

  lemma LastIn(s: seq<Nonce>, m: nat, x: Nonce)
    requires x in Last(s, m)
    ensures x in s
  {
  }

  lemma LastGrows(s: seq<Nonce>, m: nat, n: nat, x: Nonce)
    requires x in Last(s, m) && m <= n
    ensures x in Last(s, n)
  {
    var i :| 0 <= i < |Last(s, m)| && Last(s, m)[i] == x;
    var k := i + |s| - |Last(s, m)|;
    assert s[k] == x;
    assert Last(s, n)[k - (|s| - |Last(s, n)|)] == x;
  }

  ghost predicate Distinct(s: seq<Nonce>)
  {
    forall i, j :: 0 <= i < j < |s| ==> s[i] != s[j]
  }

  /** With exact filters, different nonces are all accepted. */
  lemma {:induction false} DistinctAccepted(hit: Filter, n: nat, nonces: seq<Nonce>)
    requires NoFalsePositives(hit) && n >= 1 && Distinct(nonces) && [] !in nonces
    ensures Accept(hit, n, [], nonces) == nonces
  {
    if nonces != [] {
      var before, x := nonces[..|nonces| - 1], nonces[|nonces| - 1];
      DistinctAccepted(hit, n, before);
      if Reported(hit, n, before, x) {
        ReportedIsRecent(hit, n, before, x);
      }
    }
  }

  lemma {:induction false} HeldOne(n: nat, b: seq<Nonce>)
    requires |b| <= n
    ensures Held(n, b) == Generations([], b)
  {
    if b != [] {
      var k := |b| - 1;
      HeldOne(n, b[..k]);
      assert b[..k] + [b[k]] == b;
    }
  }

  /** After one full generation and part of the next. */
  lemma {:induction false} HeldTwo(n: nat, b: seq<Nonce>, c: seq<Nonce>)
    requires 1 <= |b| == n && 1 <= |c| <= n
    ensures Held(n, b + c) == Generations(b, c)
    decreases |c|
  {
    hide Held;
    var k := |c| - 1;
    HeldSnoc(n, b + c[..k], c[k]);
    assert b + c == (b + c[..k]) + [c[k]];
    if k == 0 {
      HeldOne(n, b);
      assert b + c[..k] == b;
    } else {
      HeldTwo(n, b, c[..k]);
      assert c[..k] + [c[k]] == c;
    }
  }

  /**
   The window of `n` further acceptances is tight: with exact filters a nonce that was the last of
   its generation is forgotten by the next acceptance after that.
   */
  lemma WindowIsTight(hit: Filter, n: nat, before: seq<Nonce>, x: Nonce, after: seq<Nonce>)
    requires NoFalsePositives(hit) && n >= 1 && |before| == n - 1 && |after| == n + 1
    requires Distinct(before + [x] + after) && [] !in before + [x] + after
    ensures Accept(hit, n, [], before + [x] + after) == before + [x] + after
    ensures !Reported(hit, n, before + [x] + after, x)
  {
    var b, c, y := before + [x], after[..n], after[n];
    DistinctAccepted(hit, n, b + after);
    hide Held, Accept;
    HeldTwo(n, b, c);
    HeldSnoc(n, b + c, y);
    assert b + after == (b + c) + [y];
    NotAfter(before, x, after);
    assert x !in c && x !in [y];
    assert x !in Elems(c) && x !in Elems([y]);
  }

  lemma NotAfter(before: seq<Nonce>, x: Nonce, after: seq<Nonce>)
    requires Distinct(before + [x] + after)
    ensures x !in after
  {
    var a := before + [x] + after;
    forall k | 0 <= k < |after| ensures after[k] != x {
      assert a[|before|] == x && a[|before| + 1 + k] == after[k];
    }
  }

  /** What a memory has seen: its filter, its capacity and the nonces shown to it. */
  datatype Past = Past(hit: Filter, itemCount: nat, shown: seq<seq<byte>>)
  {
    ghost predicate Sound()
    {
      NoFalseNegatives(hit) && itemCount >= 1
    }

    /** What it accepted of them. */
    ghost function Accepted(): (a: seq<seq<byte>>)
    {
      Accept(hit, itemCount, [], shown)
    }

    ghost predicate Reports(nonce: seq<byte>)
    {
      Reported(hit, itemCount, Accepted(), nonce)
    }
  }

  /** A recent nonce is reported, and with exact filters one never shown is not. */
  lemma PastReports(past: Past, nonce: seq<byte>)
    requires past.Sound()
    ensures nonce != [] && nonce in Last(past.Accepted(), past.itemCount + 1) ==> past.Reports(nonce)
    ensures NoFalsePositives(past.hit) && nonce !in past.shown ==> !past.Reports(nonce)
  {
    hide Accept, NoFalseNegatives, NoFalsePositives, Reported;
    if nonce != [] && nonce in Last(past.Accepted(), past.itemCount + 1) {
      RecentIsReported(past.hit, past.itemCount, past.Accepted(), nonce);
    }
    if NoFalsePositives(past.hit) && past.Reports(nonce) {
      ReportedIsRecent(past.hit, past.itemCount, past.Accepted(), nonce);
      LastIn(past.Accepted(), 2 * past.itemCount, nonce);
      AcceptGrows(past.hit, past.itemCount, [], past.shown);
    }
  }

  class PingPongBloom {
    const hit: Filter
    const itemCount: nat
    var blooms: seq<set<Nonce>>
    var bloomCount: seq<nat>
    var current: nat

    ghost var accepted: seq<Nonce>   // every item ever set, in order

    ghost predicate Valid()
      reads this
    {
      && NoFalseNegatives(hit)
      && itemCount >= 1
      && |blooms| == 2 && |bloomCount| == 2 && current < 2
      && var g := Held(itemCount, accepted);
      && bloomCount[current] == |g.newer| && blooms[current] == Elems(g.newer)
      && bloomCount[1 - current] == |g.older| && blooms[1 - current] == Elems(g.older)
    }

    constructor (hit: Filter, itemCount: nat)
      requires NoFalseNegatives(hit) && itemCount >= 1
      ensures Valid() && accepted == [] && this.hit == hit && this.itemCount == itemCount
    {
      this.hit, this.itemCount := hit, itemCount;
      blooms, bloomCount, current, accepted := [{}, {}], [0, 0], 0, [];
    }

    /**
     In every reachable state the remembered items are exactly the last accepted ones, as many as
     the two counts say. Each count is at most the capacity, and at least the last capacity + 1
     accepted items (or all of them) are remembered.
     */
    lemma Remembers()
      requires Valid()
      ensures var window := bloomCount[0] + bloomCount[1];
              && blooms[0] + blooms[1] == Elems(Last(accepted, window))
              && bloomCount[0] <= itemCount && bloomCount[1] <= itemCount
              && window <= |accepted| && (window == |accepted| || window >= itemCount + 1)
    {
      hide NoFalseNegatives, Elems, Held;
      HoldsTheLast(itemCount, accepted);
      var g := Held(itemCount, accepted);
      ElemsConcat(g.older, g.newer);
    }

    /** `true`: a filter answers for the item, and nothing changes. Otherwise the item is set. */
    method CheckAndSet(buf: Nonce) returns (seen: bool)
      requires Valid()
      modifies this
      ensures Valid()
      ensures seen == Hits(hit, Held(itemCount, old(accepted)), buf)
      ensures seen ==> unchanged(this)
      ensures !seen ==> accepted == old(accepted) + [buf]
    {
      hide NoFalseNegatives, Elems, Held;
      if hit(blooms[0], buf) || hit(blooms[1], buf) {
        return true;
      }
      ghost var g := Held(itemCount, accepted);
      HeldSnoc(itemCount, accepted, buf);
      NoElems();
      ElemsConcat(g.newer, [buf]);
      if bloomCount[current] >= itemCount {
        // the current filter is full: the other one is cleared and becomes current
        current := (current + 1) % 2;
        bloomCount := bloomCount[current := 0];
        blooms := blooms[current := {}];
      }
      blooms := blooms[current := blooms[current] + {buf}];
      bloomCount := bloomCount[current := bloomCount[current] + 1];
      accepted := accepted + [buf];
      return false;
    }

    /** The empty nonce of the plain ciphers is never reported and never remembered. */
    method CheckNonceAndSet(nonce: Nonce) returns (seen: bool)
      requires Valid()
      modifies this
      ensures Valid()
      ensures seen == Reported(hit, itemCount, old(accepted), nonce)
      ensures seen || nonce == [] ==> unchanged(this)
      ensures !seen && nonce != [] ==> accepted == old(accepted) + [nonce]
    {
      hide Held;
      if nonce == [] {
        return false;
      }
      seen := CheckAndSet(nonce);
    }

    /** Whether the nonce would be reported now. */
    ghost predicate Reports(nonce: Nonce)
      reads this
    {
      Reported(hit, itemCount, accepted, nonce)
    }
  }

  lemma NoElems()
    ensures Elems([]) == {} && forall x :: Elems([x]) == {x}
  {
  }

  lemma ElemsConcat(a: seq<Nonce>, b: seq<Nonce>)
    ensures Elems(a + b) == Elems(a) + Elems(b)
  {
  }

  /** Accepted nonces: none is empty, and none was reported when it came. */
  ghost predicate Screened(hit: Filter, n: nat, a: seq<Nonce>)
  {
    forall j :: 0 <= j < |a| ==> a[j] != [] && !Reported(hit, n, a[..j], a[j])
  }

  lemma ScreenedSnoc(hit: Filter, n: nat, a: seq<Nonce>, x: Nonce)
    requires Screened(hit, n, a) && x != [] && !Reported(hit, n, a, x)
    ensures Screened(hit, n, a + [x])
  {
    hide Reported;
    var b := a + [x];
    forall j | 0 <= j < |b| ensures b[j] != [] && !Reported(hit, n, b[..j], b[j]) {
      assert b[..j] == a[..j];
      assert a[..|a|] == a;
    }
  }

  /** A nonce is accepted again only after more than `n` others were accepted in between. */
  lemma AcceptedApart(hit: Filter, n: nat, a: seq<Nonce>, i: nat, j: nat)
    requires NoFalseNegatives(hit) && n >= 1 && Screened(hit, n, a) && i < j < |a| && a[i] == a[j]
    ensures j - i - 1 > n
  {
    var before := a[..j];
    if j - i - 1 <= n {
      assert before[i] == a[j];
      assert Last(before, n + 1)[i - (j - |Last(before, n + 1)|)] == a[j];
      RecentIsReported(hit, n, before, a[j]);
    }
  }

  /** The non-empty nonces that were let through, in order. */
  function Accepted(nonces: seq<Nonce>, verdicts: seq<bool>): (a: seq<Nonce>)
    requires |nonces| == |verdicts|
  {
    if nonces == [] then []
    else
      var k := |nonces| - 1;
      Accepted(nonces[..k], verdicts[..k]) + (if verdicts[k] || nonces[k] == [] then [] else [nonces[k]])
  }

  lemma {:induction false} AcceptedSplit(nonces: seq<Nonce>, verdicts: seq<bool>, i: nat)
    requires |nonces| == |verdicts| && i <= |nonces|
    ensures Accepted(nonces, verdicts) == Accepted(nonces[..i], verdicts[..i]) + Accepted(nonces[i..], verdicts[i..])
  {
    if i == |nonces| {
      assert nonces[..i] == nonces && verdicts[..i] == verdicts;
    } else {
      var k := |nonces| - 1;
      AcceptedSplit(nonces[..k], verdicts[..k], i);
      Slices(nonces, i, k);
      Slices(verdicts, i, k);
    }
  }

  lemma Slices<T>(s: seq<T>, i: nat, k: nat)
    requires i <= k < |s|
    ensures s[..k][..i] == s[..i] && s[..k][i..] == s[i..][..k - i]
  {
  }

  /** The nonce let through at `i` is among the last ones, behind only those let through later. */
  lemma AcceptedAt(nonces: seq<Nonce>, verdicts: seq<bool>, i: nat, n: nat)
    requires |nonces| == |verdicts| && i < |nonces| && nonces[i] != [] && !verdicts[i]
    requires |Accepted(nonces[i + 1..], verdicts[i + 1..])| <= n
    ensures nonces[i] in Last(Accepted(nonces, verdicts), n + 1)
  {
    AcceptedSplit(nonces, verdicts, i + 1);
    var a, later := Accepted(nonces, verdicts), Accepted(nonces[i + 1..], verdicts[i + 1..]);
    var upto := Accepted(nonces[..i + 1], verdicts[..i + 1]);
    assert nonces[..i + 1][..i] == nonces[..i] && verdicts[..i + 1][..i] == verdicts[..i];
    assert upto[|upto| - 1] == nonces[i];
    assert a[|upto| - 1] == nonces[i];
    assert Last(a, n + 1)[|upto| - 1 - (|a| - |Last(a, n + 1)|)] == nonces[i];
  }

  /** A repeat that must be caught: at most `n` nonces were let through in between. */
  ghost predicate MustReport(nonces: seq<Nonce>, verdicts: seq<bool>, n: nat, i: nat, j: nat)
    requires i < j < |nonces| && j <= |verdicts|
  {
    && nonces[i] == nonces[j] != []
    && !verdicts[i]
    && |Accepted(nonces[i + 1..j], verdicts[i + 1..j])| <= n
  }

  /** A nonce is reported exactly when the filters, holding what was accepted before it, answer for it. */
  ghost predicate Exact(hit: Filter, n: nat, nonces: seq<Nonce>, verdicts: seq<bool>)
    requires |verdicts| <= |nonces|
  {
    forall k :: 0 <= k < |verdicts| ==> verdicts[k] == Reported(hit, n, Accept(hit, n, [], nonces[..k]), nonces[k])
  }

  /** Every repeat that must be caught is reported. */
  ghost predicate NoReplay(nonces: seq<Nonce>, verdicts: seq<bool>, n: nat)
    requires |verdicts| <= |nonces|
  {
    forall i, j :: 0 <= i < j < |verdicts| && MustReport(nonces, verdicts, n, i, j) ==> verdicts[j]
  }

  /** Whatever is reported is among the last `n` accepted nonces. */
  ghost predicate OnlyRecent(nonces: seq<Nonce>, verdicts: seq<bool>, n: nat)
    requires |verdicts| <= |nonces|
  {
    forall j :: 0 <= j < |verdicts| && verdicts[j] ==> nonces[j] in Last(Accepted(nonces[..j], verdicts[..j]), n)
  }

  /**
   Screens any sequence of nonces with a fresh memory: each is reported exactly when the filters,
   holding what was accepted before it, answer for it. Every nonce shown again after at most
   `itemCount` further acceptances is reported; with exact filters, whatever is reported is one
   of the last 2 * `itemCount` accepted nonces.
   */
  method Screen(hit: Filter, itemCount: nat, nonces: seq<Nonce>) returns (verdicts: seq<bool>)
    requires NoFalseNegatives(hit) && itemCount >= 1
    ensures |verdicts| == |nonces|
    ensures Exact(hit, itemCount, nonces, verdicts)
    ensures NoReplay(nonces, verdicts, itemCount)
    ensures NoFalsePositives(hit) ==> OnlyRecent(nonces, verdicts, 2 * itemCount)
  {
    hide NoReplay, OnlyRecent, NoFalsePositives, NoFalseNegatives, Last, Accept, Accepted, PingPongBloom.Valid;
    var memory := new PingPongBloom(hit, itemCount);
    verdicts := [];
    Nothing(hit, nonces, itemCount);
    for k := 0 to |nonces|
      invariant |verdicts| == k
      invariant memory.Valid() && memory.hit == hit && memory.itemCount == itemCount && fresh(memory)
      invariant memory.accepted == Accepted(nonces[..k], verdicts) == Accept(hit, itemCount, [], nonces[..k])
      invariant Exact(hit, itemCount, nonces, verdicts)
      invariant NoReplay(nonces, verdicts, itemCount)
      invariant NoFalsePositives(hit) ==> OnlyRecent(nonces, verdicts, 2 * itemCount)
    {
      CaughtAll(memory, nonces, verdicts);
      if NoFalsePositives(hit) && memory.Reports(nonces[k]) {
        ReportedIsRecent(hit, itemCount, memory.accepted, nonces[k]);
      }
      var seen := memory.CheckNonceAndSet(nonces[k]);
      NoReplaySnoc(nonces, verdicts, seen, itemCount);
      if NoFalsePositives(hit) {
        OnlyRecentSnoc(nonces, verdicts, seen, 2 * itemCount);
      }
      AcceptedSnoc(nonces, verdicts, seen);
      AcceptUpTo(hit, itemCount, [], nonces, k);
      verdicts := verdicts + [seen];
    }
    assert nonces[..|nonces|] == nonces;
  }

  lemma Nothing(hit: Filter, nonces: seq<Nonce>, n: nat)
    ensures NoReplay(nonces, [], n) && OnlyRecent(nonces, [], 2 * n)
    ensures Accepted(nonces[..0], []) == [] == Accept(hit, n, [], nonces[..0])
  {
  }

  /** Whatever must be caught next is reported by the memory. */
  lemma CaughtAll(memory: PingPongBloom, nonces: seq<Nonce>, verdicts: seq<bool>)
    requires memory.Valid() && |verdicts| < |nonces|
    requires memory.accepted == Accepted(nonces[..|verdicts|], verdicts)
    ensures forall i :: 0 <= i < |verdicts| && MustReport(nonces, verdicts, memory.itemCount, i, |verdicts|)
                        ==> memory.Reports(nonces[|verdicts|])
  {
    hide Accepted, Held, Elems, MustReport, Reported;
    var k := |verdicts|;
    forall i | 0 <= i < k && MustReport(nonces, verdicts, memory.itemCount, i, k)
      ensures memory.Reports(nonces[k])
    {
      Caught(memory.hit, memory.itemCount, nonces, verdicts, i);
    }
  }

  lemma Caught(hit: Filter, n: nat, nonces: seq<Nonce>, verdicts: seq<bool>, i: nat)
    requires NoFalseNegatives(hit) && n >= 1 && i < |verdicts| < |nonces|
    requires MustReport(nonces, verdicts, n, i, |verdicts|)
    ensures Reported(hit, n, Accepted(nonces[..|verdicts|], verdicts), nonces[|verdicts|])
  {
    hide Accepted, Reported, NoFalseNegatives, Last;
    var k := |verdicts|;
    assert nonces[..k][i + 1..] == nonces[i + 1..k] && verdicts[i + 1..] == verdicts[i + 1..k];
    AcceptedAt(nonces[..k], verdicts, i, n);
    RecentIsReported(hit, n, Accepted(nonces[..k], verdicts), nonces[k]);
  }

  lemma AcceptedSnoc(nonces: seq<Nonce>, verdicts: seq<bool>, seen: bool)
    requires |verdicts| < |nonces|
    ensures var k := |verdicts|;
            Accepted(nonces[..k + 1], verdicts + [seen]) ==
            Accepted(nonces[..k], verdicts) + (if seen || nonces[k] == [] then [] else [nonces[k]])
  {
    var k := |verdicts|;
    assert nonces[..k + 1][..k] == nonces[..k] && (verdicts + [seen])[..k] == verdicts;
  }

  lemma NoReplaySnoc(nonces: seq<Nonce>, verdicts: seq<bool>, seen: bool, n: nat)
    requires |verdicts| < |nonces| && NoReplay(nonces, verdicts, n)
    requires forall i :: 0 <= i < |verdicts| && MustReport(nonces, verdicts, n, i, |verdicts|) ==> seen
    ensures NoReplay(nonces, verdicts + [seen], n)
  {
    hide MustReport;
    var v := verdicts + [seen];
    forall i, j | 0 <= i < j < |v| && MustReport(nonces, v, n, i, j)
      ensures v[j]
    {
      MustReportSame(nonces, verdicts, seen, n, i, j);
    }
  }

  lemma MustReportSame(nonces: seq<Nonce>, verdicts: seq<bool>, seen: bool, n: nat, i: nat, j: nat)
    requires |verdicts| < |nonces| && i < j <= |verdicts|
    ensures MustReport(nonces, verdicts + [seen], n, i, j) == MustReport(nonces, verdicts, n, i, j)
  {
    assert (verdicts + [seen])[i + 1..j] == verdicts[i + 1..j];
  }

  lemma OnlyRecentSnoc(nonces: seq<Nonce>, verdicts: seq<bool>, seen: bool, n: nat)
    requires |verdicts| < |nonces| && OnlyRecent(nonces, verdicts, n)
    requires seen ==> nonces[|verdicts|] in Last(Accepted(nonces[..|verdicts|], verdicts), n)
    ensures OnlyRecent(nonces, verdicts + [seen], n)
  {
    hide Accepted, Last;
    var v := verdicts + [seen];
    forall j | 0 <= j < |v| && v[j]
      ensures nonces[j] in Last(Accepted(nonces[..j], v[..j]), n)
    {
      assert v[..j] == verdicts[..j];
      assert verdicts[..|verdicts|] == verdicts;
    }
  }

  /** A replay memory with the given past. */
  method Recall(past: Past) returns (m: PingPongBloom)
    requires past.Sound()
    ensures m.Valid() && fresh(m) && m.hit == past.hit && m.itemCount == past.itemCount
    ensures m.accepted == past.Accepted()
  {
    hide PingPongBloom.Valid, NoFalseNegatives, Reported, Accept;
    m := new PingPongBloom(past.hit, past.itemCount);
    Nothing(past.hit, past.shown, past.itemCount);
    for k := 0 to |past.shown|
      invariant m.Valid() && fresh(m) && m.hit == past.hit && m.itemCount == past.itemCount
      invariant m.accepted == Accept(past.hit, past.itemCount, [], past.shown[..k])
    {
      var _ := m.CheckNonceAndSet(past.shown[k]);
      AcceptUpTo(past.hit, past.itemCount, [], past.shown, k);
    }
    assert past.shown[..|past.shown|] == past.shown;
  }
}
