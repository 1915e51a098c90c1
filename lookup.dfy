/** Tag lookup shared by both loggers: for each entry of one kind, in configuration order,
    for each of its tags, for each query tag, one kind-stamped copy of the entry per equal pair;
    the three kinds concatenated file, console, http. */
module Lookup {
  import opened ConfigModel

  /** The tag of the targets every `log` call goes to. */
  const AlwaysTag := "all"

  /** `{ type, ...target }`: a copy of a configuration entry stamped with the kind it was found under. */
  datatype Copy = Copy(kind: Kind, entry: Entry)

  /** The tags argument of `logt`: a single tag or an array of tags. */
  datatype TagArg = One(tag: string) | Many(tags: seq<string>)

  /** `if (!Array.isArray(tags)) tags = [ tags ]` */
  function QueryOf(arg: TagArg): seq<string> {
    match arg
    case One(t) => [t]
    case Many(ts) => ts
  }

  predicate AllIterable(es: seq<Entry>) {
    forall e <- es :: Iterable(e.tags)
  }

  predicate RegistryIterable(reg: Registry) {
    AllIterable(reg.file) && AllIterable(reg.console) && AllIterable(reg.http)
  }

  /** Two tag lists have a tag in common. */
  ghost predicate Shares(tags: seq<string>, q: seq<string>) {
    exists t :: t in tags && t in q
  }

  /** The copy was found under its own kind's array. */
  ghost predicate FromRegistry(c: Copy, reg: Registry) {
    c.entry in reg.Of(c.kind)
  }

  /** Number of query positions holding x: the innermost loop's pushes for one target tag. */
  function Count(q: seq<string>, x: string): (n: nat)
    ensures n <= |q|
    ensures n == 0 <==> x !in q
  {
    if q == [] then 0
    else Count(q[..|q| - 1], x) + (if q[|q| - 1] == x then 1 else 0)
  }

  /** Number of (target tag, query tag) pairs that are equal: the pushes for one target. */
  function Hits(tags: seq<string>, q: seq<string>): nat {
    if tags == [] then 0
    else Hits(tags[..|tags| - 1], q) + Count(q, tags[|tags| - 1])
  }

  /** An entry gets at least one copy exactly when it shares a tag with the query. */
  lemma {:induction false} HitsShares(tags: seq<string>, q: seq<string>)
    ensures Hits(tags, q) > 0 <==> Shares(tags, q)
  {
    if tags != [] {
      var init, last := tags[..|tags| - 1], tags[|tags| - 1];
      assert tags == init + [last];
      HitsShares(init, q);
      if Shares(tags, q) && !Shares(init, q) {
        var t :| t in tags && t in q;
        assert t == last;
      }
    }
  }

  function Copies(c: Copy, n: nat): (r: seq<Copy>)
    ensures |r| == n
    ensures forall x <- r :: x == c
  {
    seq(n, _ => c)
  }

  /** `getTargetsOfTypeAndTags(tags, type)` over the array `es` of that type. */
  function Matches(es: seq<Entry>, q: seq<string>, kind: Kind): seq<Copy>
    requires AllIterable(es)
  {
    if es == [] then []
    else
      var e := es[|es| - 1];
      Matches(es[..|es| - 1], q, kind) + Copies(Copy(kind, e), Hits(Items(e.tags), q))
  }

  /** `getTargetsByTags(tags)`: the file matches, then the console matches, then the http matches. */
  function Resolve(reg: Registry, q: seq<string>): seq<Copy>
    requires RegistryIterable(reg)
  {
    Matches(reg.file, q, File) + Matches(reg.console, q, Console) + Matches(reg.http, q, Http)
  }

  function Rank(k: Kind): nat {
    match k
    case File => 0
    case Console => 1
    case Http => 2
  }

  // One step of each of the three nested loops.

  lemma CountStep(q: seq<string>, k: nat, x: string)
    requires k < |q|
    ensures Count(q[..k + 1], x) == Count(q[..k], x) + (if q[k] == x then 1 else 0)
  {
    assert q[..k + 1][..k] == q[..k];
  }

  lemma HitsStep(tags: seq<string>, j: nat, q: seq<string>)
    requires j < |tags|
    ensures Hits(tags[..j + 1], q) == Hits(tags[..j], q) + Count(q, tags[j])
  {
    assert tags[..j + 1][..j] == tags[..j];
  }

  lemma MatchesStep(es: seq<Entry>, i: nat, q: seq<string>, kind: Kind)
    requires AllIterable(es) && i < |es|
    ensures AllIterable(es[..i]) && AllIterable(es[..i + 1])
    ensures Matches(es[..i + 1], q, kind) == Matches(es[..i], q, kind) + Copies(Copy(kind, es[i]), Hits(Items(es[i].tags), q))
  {
    assert es[..i + 1][..i] == es[..i];
  }

  /** The lookup keeps configuration order: the matches of a concatenation are the matches
      of each part, in order. */
  lemma {:induction false} MatchesAppend(a: seq<Entry>, b: seq<Entry>, q: seq<string>, kind: Kind)
    requires AllIterable(a + b)
    ensures AllIterable(a) && AllIterable(b)
    ensures Matches(a + b, q, kind) == Matches(a, q, kind) + Matches(b, q, kind)
  {
    AllIterableSplit(a, b);
    if b == [] {
      assert a + b == a;
    } else {
      var ab := a + b;
      var init := b[..|b| - 1];
      var e := b[|b| - 1];
      assert ab[..|ab| - 1] == a + init;
      assert ab[|ab| - 1] == e;
      AllIterableSplit(a, init);
      var last := Copies(Copy(kind, e), Hits(Items(e.tags), q));
      assert Matches(ab, q, kind) == Matches(a + init, q, kind) + last;
      assert Matches(b, q, kind) == Matches(init, q, kind) + last;
      MatchesAppend(a, init, q, kind);
    }
  }

  lemma AllIterableSplit(a: seq<Entry>, b: seq<Entry>)
    requires AllIterable(a + b) || (AllIterable(a) && AllIterable(b))
    ensures AllIterable(a + b) && AllIterable(a) && AllIterable(b)
  {
    assert forall e <- a :: e in a + b;
    assert forall e <- b :: e in a + b;
  }

  lemma CopiesSucc(before: seq<Copy>, c: Copy, n: nat)
    ensures before + Copies(c, n) + [c] == before + Copies(c, n + 1)
  {
    assert Copies(c, n) + [c] == Copies(c, n + 1);
  }

  /** The two inner loops of a lookup, for one entry: for each of its tags and each query tag,
      one more copy of the entry on `out` per equal pair. */
  method PushMatches(out: seq<Copy>, c: Copy, targetTags: seq<string>, q: seq<string>) returns (r: seq<Copy>)
    ensures r == out + Copies(c, Hits(targetTags, q))
  {
    r := out;
    ghost var n := 0;
    var j := 0;
    while j < |targetTags|
      invariant 0 <= j <= |targetTags|
      invariant n == Hits(targetTags[..j], q)
      invariant r == out + Copies(c, n)
    {
      ghost var n0 := n;
      var k := 0;
      while k < |q|
        invariant 0 <= k <= |q|
        invariant n == n0 + Count(q[..k], targetTags[j])
        invariant r == out + Copies(c, n)
      {
        CountStep(q, k, targetTags[j]);
        if targetTags[j] == q[k] {
          CopiesSucc(out, c, n);
          r := r + [c];
          n := n + 1;
        }
        k := k + 1;
      }
      assert q[..k] == q;
      HitsStep(targetTags, j, q);
      j := j + 1;
    }
    assert targetTags[..j] == targetTags;
  }

  /** Every copy found is stamped with the queried kind, comes from the array, and shares a tag with the query. */
  lemma {:induction false} MatchesSound(es: seq<Entry>, q: seq<string>, kind: Kind)
    requires AllIterable(es)
    ensures forall c <- Matches(es, q, kind) :: c.kind == kind && c.entry in es && Shares(Items(c.entry.tags), q)
  {
    if es != [] {
      var init, last := es[..|es| - 1], es[|es| - 1];
      assert es == init + [last];
      MatchesSound(init, q, kind);
      HitsShares(Items(last.tags), q);
    }
  }

  /** Every copy the lookup returns comes from its kind's array and shares a tag with the query. */
  lemma ResolveSound(reg: Registry, q: seq<string>)
    requires RegistryIterable(reg)
    ensures forall c <- Resolve(reg, q) :: FromRegistry(c, reg) && Shares(Items(c.entry.tags), q)
  {
    MatchesSound(reg.file, q, File);
    MatchesSound(reg.console, q, Console);
    MatchesSound(reg.http, q, Http);
  }

  /** Every entry that shares a tag with the query is found, stamped with the queried kind. */
  lemma {:induction false} MatchesComplete(es: seq<Entry>, q: seq<string>, kind: Kind, e: Entry)
    requires AllIterable(es)
    requires e in es && Shares(Items(e.tags), q)
    ensures Copy(kind, e) in Matches(es, q, kind)
  {
    var init := es[..|es| - 1];
    var last := es[|es| - 1];
    assert es == init + [last];
    if e == last {
      var n := Hits(Items(e.tags), q);
      HitsShares(Items(e.tags), q);
      assert Copies(Copy(kind, e), n)[0] == Copy(kind, e);
    } else {
      MatchesComplete(init, q, kind, e);
    }
  }

  /** The innermost loop pushes once per occurrence of the target tag among the query tags. */
  lemma {:induction false} CountIsMultiplicity(q: seq<string>, x: string)
    ensures Count(q, x) == multiset(q)[x]
  {
    if q != [] {
      var init := q[..|q| - 1];
      assert q == init + [q[|q| - 1]];
      CountIsMultiplicity(init, x);
    }
  }

  lemma CopiesMultiplicity(c: Copy, n: nat, d: Copy)
    ensures multiset(Copies(c, n))[d] == if d == c then n else 0
  {
    if n > 0 {
      assert Copies(c, n) == Copies(c, n - 1) + [c];
      CopiesMultiplicity(c, n - 1, d);
    }
  }

  /** An entry occurring m times in its array shows up m * Hits times in the lookup:
      one copy per equal (target tag, query tag) pair, for each occurrence. */
  lemma {:induction false} MatchesMultiplicity(es: seq<Entry>, q: seq<string>, kind: Kind, e: Entry)
    requires AllIterable(es)
    requires Iterable(e.tags)
    ensures multiset(Matches(es, q, kind))[Copy(kind, e)] == multiset(es)[e] * Hits(Items(e.tags), q)
  {
    if es != [] {
      var init := es[..|es| - 1];
      var last := es[|es| - 1];
      assert es == init + [last];
      var ce, cl := Copy(kind, e), Copy(kind, last);
      var h, hl := Hits(Items(e.tags), q), Hits(Items(last.tags), q);
      assert Matches(es, q, kind) == Matches(init, q, kind) + Copies(cl, hl);
      assert multiset(Matches(es, q, kind))[ce]
        == multiset(Matches(init, q, kind))[ce] + multiset(Copies(cl, hl))[ce];
      MatchesMultiplicity(init, q, kind, e);
      CopiesMultiplicity(cl, hl, ce);
      var m := multiset(init)[e];
      if last == e {
        assert multiset(es)[e] == m + 1;
        MulSucc(m, h);
      } else {
        assert multiset(es)[e] == m;
      }
    }
  }

  lemma MulSucc(m: nat, h: nat)
    ensures (m + 1) * h == m * h + h
  {
  }

  /** File copies come before console copies, which come before http copies. */
  predicate RankSorted(cs: seq<Copy>) {
    forall i, j :: 0 <= i < j < |cs| ==> Rank(cs[i].kind) <= Rank(cs[j].kind)
  }

  /** The lookup lists all file copies, then all console copies, then all http copies. */
  lemma ResolveOrdered(reg: Registry, q: seq<string>)
    requires RegistryIterable(reg)
    ensures RankSorted(Resolve(reg, q))
  {
    var a, b, c := Matches(reg.file, q, File), Matches(reg.console, q, Console), Matches(reg.http, q, Http);
    MatchesSound(reg.file, q, File);
    MatchesSound(reg.console, q, Console);
    MatchesSound(reg.http, q, Http);
    forall i, j | 0 <= i < j < |a + b + c|
      ensures Rank((a + b + c)[i].kind) <= Rank((a + b + c)[j].kind)
    {
      RankAt(a, b, c, i);
      RankAt(a, b, c, j);
    }
  }

  lemma RankAt(a: seq<Copy>, b: seq<Copy>, c: seq<Copy>, i: nat)
    requires (forall x <- a :: x.kind == File) && (forall x <- b :: x.kind == Console) && (forall x <- c :: x.kind == Http)
    requires i < |a + b + c|
    ensures Rank((a + b + c)[i].kind) == if i < |a| then 0 else if i < |a| + |b| then 1 else 2
  {
    if i < |a| {
      assert (a + b + c)[i] == a[i];
    } else if i < |a| + |b| {
      assert (a + b + c)[i] == b[i - |a|];
    } else {
      assert (a + b + c)[i] == c[i - |a| - |b|];
    }
  }

  /** A copy is in the lookup exactly when its entry is in its kind's array and shares a tag with the query. */
  lemma ResolveExactly(reg: Registry, q: seq<string>, c: Copy)
    requires RegistryIterable(reg)
    ensures c in Resolve(reg, q) <==> FromRegistry(c, reg) && Shares(Items(c.entry.tags), q)
  {
    ResolveSound(reg, q);
    if FromRegistry(c, reg) && Shares(Items(c.entry.tags), q) {
      MatchesComplete(reg.Of(c.kind), q, c.kind, c.entry);
    }
  }
}
