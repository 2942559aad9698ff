/**
 Which link texts are resolved right in every tree: exactly those that ask for no directory but
 the link's own and those above it, be it to leave it by ".." or to end in "." there.
 */
module ResolveExact {
  import opened Wrappers
  import opened ResolveInRoot

  /** One link l in the directory base; all others are tidy. */
  ghost predicate Setting(t: Tree, base: Path, l: string, link: Entry) {
    && Real(t, base) && IsName(l) && link.Link? && base + [l] in t && t[base + [l]] == link
    && forall p :: p in t && p != base + [l] && t[p].Link? ==> Tidy(t[p].target)
  }

  /** Where the i-th component of raw is taken from. */
  function At(start: Path, raw: seq<string>, i: nat): Path
    requires i <= |raw|
  {
    CleanOnto(start, raw[..i])
  }

  predicate BadAt(base: Path, start: Path, raw: seq<string>, j: nat) {
    AsksDir(raw, j) && !(At(start, raw, j) <= base)
  }

  /** Only base and the directories above it are asked for. */
  predicate AsksAbove(base: Path, start: Path, raw: seq<string>) {
    forall j :: 0 <= j < |raw| ==> !BadAt(base, start, raw, j)
  }

  function Start(base: Path, absolute: bool): Path {
    if absolute then [] else base
  }

  lemma AtNext(start: Path, raw: seq<string>, i: nat)
    requires i < |raw|
    ensures At(start, raw, i + 1) == Step(At(start, raw, i), raw[i])
  {
    assert raw[..i + 1] == raw[..i] + [raw[i]];
    CleanSplit(start, raw[..i], [raw[i]]);
    assert [raw[i]][1..] == [];
  }

  // ---------------------------------------------------------------- such texts are resolved right

  lemma RealPrefix(t: Tree, p: Path, base: Path)
    requires Real(t, base) && p <= base
    ensures Real(t, p)
  {
    forall i | 0 < i <= |p| ensures p[..i] == base[..i] {
    }
  }

  lemma {:induction false} BackedFrom(t: Tree, base: Path, start: Path, raw: seq<string>, i: nat)
    requires Real(t, base) && AsksAbove(base, start, raw) && i <= |raw|
    ensures Backed(t, At(start, raw, i), raw[i..])
    decreases |raw| - i
  {
    if i < |raw| {
      AtNext(start, raw, i);
      BackedFrom(t, base, start, raw, i + 1);
      assert raw[i..][0] == raw[i] && raw[i..][1..] == raw[i + 1..];
      assert !BadAt(base, start, raw, i);
      if AsksDir(raw[i..], 0) {
        RealPrefix(t, At(start, raw, i), base);
      }
    }
  }

  lemma BackedSetting(t: Tree, base: Path, l: string, link: Entry)
    requires Setting(t, base, l, link) && AsksAbove(base, Start(base, link.absolute), link.target)
    ensures BackedLinks(t)
  {
    forall p | p in t && t[p].Link? && Real(t, Up(p))
      ensures Backed(t, StartOf(p, t[p]), t[p].target)
    {
      if p == base + [l] {
        assert Up(p) == base;
        BackedFrom(t, base, Start(base, link.absolute), link.target, 0);
        assert link.target[0..] == link.target;
      } else {
        TidyBacked(t, StartOf(p, t[p]), t[p].target);
      }
    }
  }

  // ---------------------------------------------------------------- the first that asks for more, and where

  /** j is the first component to ask for more, it asks for q, and q was reached by the name before k. */
  ghost predicate Escapes(base: Path, start: Path, raw: seq<string>, q: Path, k: nat, j: nat) {
    && 0 < k <= j < |raw| && AsksDir(raw, j) && q == At(start, raw, j) && q == At(start, raw, k) && !(q <= base)
    && IsName(raw[k - 1]) && q == At(start, raw, k - 1) + [raw[k - 1]]
    && (forall i :: 0 <= i < k ==> OnTheWay(base, start, raw, q, i))
    && (forall i :: k <= i < j ==> !Moves(raw[i]))
  }

  ghost predicate OnTheWay(base: Path, start: Path, raw: seq<string>, q: Path, i: nat)
    requires i <= |raw|
  {
    At(start, raw, i) <= base || (At(start, raw, i) <= q && At(start, raw, i) != q)
  }

  lemma FirstBad(base: Path, start: Path, raw: seq<string>) returns (j: nat)
    requires !AsksAbove(base, start, raw)
    ensures BadAt(base, start, raw, j) && forall i :: 0 <= i < j ==> !BadAt(base, start, raw, i)
  {
    j := 0;
    while !BadAt(base, start, raw, j)
      invariant j <= |raw| && forall i :: 0 <= i < j ==> !BadAt(base, start, raw, i)
      decreases |raw| - j
    {
      j := j + 1;
    }
  }

  /** Off base, paths only grow until then. */
  lemma {:induction false} OnlyGrows(base: Path, start: Path, raw: seq<string>, i: nat, j: nat)
    requires i <= j <= |raw| && !(At(start, raw, i) <= base)
    requires forall m :: 0 <= m < j ==> !BadAt(base, start, raw, m)
    ensures At(start, raw, i) <= At(start, raw, j)
    decreases j - i
  {
    if i < j {
      AtNext(start, raw, i);
      assert !BadAt(base, start, raw, i);
      OnlyGrows(base, start, raw, i + 1, j);
    }
  }

  lemma FindEscape(base: Path, start: Path, raw: seq<string>) returns (q: Path, k: nat, j: nat)
    requires start <= base && !AsksAbove(base, start, raw)
    ensures Escapes(base, start, raw, q, k, j)
  {
    j := FirstBad(base, start, raw);
    q := At(start, raw, j);
    k := 0;
    while At(start, raw, k) != q
      invariant k <= j && forall i :: 0 <= i < k ==> At(start, raw, i) != q
      decreases j - k
    {
      k := k + 1;
    }
    assert raw[..0] == [];
    AtNext(start, raw, k - 1);
    assert !BadAt(base, start, raw, k - 1);
    forall i | 0 <= i < k ensures OnTheWay(base, start, raw, q, i) {
      if !(At(start, raw, i) <= base) {
        OnlyGrows(base, start, raw, i, j);
      }
    }
    forall i | k <= i < j ensures !Moves(raw[i]) {
      Unmoved(base, start, raw, q, k, i, j);
    }
  }

  lemma Unmoved(base: Path, start: Path, raw: seq<string>, q: Path, k: nat, i: nat, j: nat)
    requires k <= i < j <= |raw| && q == At(start, raw, k) && q == At(start, raw, j) && !(q <= base)
    requires forall m :: 0 <= m < j ==> !BadAt(base, start, raw, m)
    ensures !Moves(raw[i])
  {
    OnlyGrows(base, start, raw, k, i);
    AtNext(start, raw, i);
    assert !BadAt(base, start, raw, i);
    OnlyGrows(base, start, raw, i, j);
    if IsName(raw[i]) {
      OnlyGrows(base, start, raw, i + 1, j);
    }
  }

  // ---------------------------------------------------------------- fresh names

  function Longest(s: seq<string>): (n: nat)
    ensures forall c :: c in s ==> |c| <= n
  {
    if s == [] then 0 else
      var n := Longest(s[1..]);
      if |s[0]| > n then |s[0]| else n
  }

  function Xs(n: nat): (s: string)
    ensures |s| == n && (n > 2 ==> IsName(s))
  {
    seq(n, i => 'x')
  }

  /** Two names that occur in neither list. */
  lemma FreshNames(a: seq<string>, b: seq<string>) returns (l: string, f: string)
    ensures IsName(l) && IsName(f) && l != f && l !in a && l !in b && f !in a && f !in b
  {
    var n := Longest(a + b) + 3;
    l, f := Xs(n), Xs(n + 1);
    assert forall c :: c in a || c in b ==> c in a + b;
  }

  // ---------------------------------------------------------------- trees that show it

  /** Everything on the way to the paths of ends. */
  ghost function OnWayTo(ends: set<Path>): set<Path> {
    set p, i | p in ends && 0 < i <= |p| :: p[..i]
  }

  /** The link, e at q, and directories on the way to all ends. */
  ghost function Grown(ends: set<Path>, at: Path, link: Entry, q: Path, e: Entry): map<Path, Entry> {
    map p | p in OnWayTo(ends) :: if p == q then e else if p == at then link else Dir
  }

  /** No end lies under p. */
  ghost predicate Tip(ends: set<Path>, p: Path) {
    forall x :: x in ends && p <= x ==> p == x
  }

  lemma GrownHangs(ends: set<Path>, at: Path, link: Entry, q: Path, e: Entry)
    requires Tip(ends, q) && Tip(ends, at)
    ensures Hangs(Grown(ends, at, link, q, e))
  {
    var t := Grown(ends, at, link, q, e);
    forall p: Path, c: string | p + [c] in t ensures IsDir(t, p) {
      var x, i :| x in ends && 0 < i <= |x| && p + [c] == x[..i];
      assert p == x[..i - 1];
      if p != [] {
        assert p in OnWayTo(ends);
      }
    }
  }

  lemma GrownAt(ends: set<Path>, at: Path, link: Entry, q: Path, e: Entry, p: Path, i: nat)
    requires p in ends && 0 < i <= |p|
    ensures var t := Grown(ends, at, link, q, e);
            p[..i] in t && t[p[..i]] == if p[..i] == q then e else if p[..i] == at then link else Dir
  {
    assert p[..i] in OnWayTo(ends);
  }

  /** The way to the link and, in its directory or elsewhere, to q, which is no directory. */
  ghost predicate Leads(t: Tree, base: Path, l: string, link: Entry, q: Path) {
    && link.Link? && IsName(l) && base + [l] in t && t[base + [l]] == link
    && q in t && !t[q].Dir? && (t[q].Link? ==> Tidy(t[q].target))
    && (forall p :: p in t && t[p].Link? ==> p == q || p == base + [l])
    && Real(t, base) && Real(t, Up(q))
  }

  lemma LeadsSetting(t: Tree, base: Path, l: string, link: Entry, q: Path)
    requires Leads(t, base, l, link, q)
    ensures Setting(t, base, l, link)
  {
  }

  lemma GrownLeads(ends: set<Path>, base: Path, l: string, link: Entry, q: Path, e: Entry)
    requires AllNames(base) && AllNames(q) && IsName(l) && l !in base && l !in q && q != [] && !(q <= base)
    requires link.Link? && !e.Dir? && (e.Link? ==> Tidy(e.target))
    requires base + [l] in ends && q in ends && Tip(ends, q) && Tip(ends, base + [l])
    ensures Hangs(Grown(ends, base + [l], link, q, e)) && Leads(Grown(ends, base + [l], link, q, e), base, l, link, q)
  {
    var at, t := base + [l], Grown(ends, base + [l], link, q, e);
    GrownHangs(ends, at, link, q, e);
    assert at[|base|] == l && at[..|at|] == at && q[..|q|] == q && l in at;
    GrownAt(ends, at, link, q, e, at, |at|);
    GrownAt(ends, at, link, q, e, q, |q|);
    forall i | 0 < i <= |base| ensures base[..i] in t && t[base[..i]].Dir? {
      GrownAt(ends, at, link, q, e, at, i);
      assert at[..i] == base[..i] && base[..i] <= base;
    }
    var up := Up(q);
    forall i | 0 < i <= |up| ensures up[..i] in t && t[up[..i]].Dir? {
      GrownAt(ends, at, link, q, e, q, i);
      assert up[..i] == q[..i] && l !in q[..i];
    }
  }

  // ---------------------------------------------------------------- the walk to q

  /** A walk through nothing but directories goes where the text says. */
  lemma {:induction false} WalkText(t: Tree, cur: Path, raw: seq<string>, i: nat, rest: seq<string>, links: nat)
    requires i <= |raw|
    requires forall m :: i <= m <= |raw| ==> IsDir(t, At(cur, raw, m))
    ensures Walk(t, At(cur, raw, i), raw[i..] + rest, links) == Walk(t, At(cur, raw, |raw|), rest, links)
    decreases |raw| - i
  {
    if i == |raw| {
      assert raw[i..] + rest == rest;
    } else {
      var todo := raw[i..] + rest;
      AtNext(cur, raw, i);
      assert todo[0] == raw[i] && todo[1..] == raw[i + 1..] + rest;
      assert IsDir(t, At(cur, raw, i)) && IsDir(t, At(cur, raw, i + 1));
      WalkText(t, cur, raw, i + 1, rest, links);
    }
  }

  lemma WalkToLink(t: Tree, base: Path, l: string, link: Entry)
    requires Real(t, base) && IsName(l) && base + [l] in t && t[base + [l]] == link && link.Link?
    ensures Walk(t, [], base + [l], 32) == Walk(t, Start(base, link.absolute), link.target, 31)
  {
    assert base[..0] == [] && base[0..] == base;
    WalkReal(t, base, 0, [l], 32);
    assert [l][1..] == [] && link.target + [] == link.target;
  }

  lemma DirOnTheWay(t: Tree, base: Path, l: string, link: Entry, q: Path, p: Path)
    requires Leads(t, base, l, link, q) && (p <= base || (p <= q && p != q))
    ensures IsDir(t, p)
  {
    if p <= base {
      RealPrefix(t, p, base);
    } else {
      assert p <= Up(q);
      RealPrefix(t, p, Up(q));
    }
    RealIsDir(t, p);
  }

  lemma WalkToQ(t: Tree, base: Path, l: string, link: Entry, q: Path, k: nat, j: nat)
    requires Leads(t, base, l, link, q) && Escapes(base, Start(base, link.absolute), link.target, q, k, j)
    ensures var raw, start := link.target, Start(base, link.absolute);
            Walk(t, [], base + [l], 32) == Walk(t, At(start, raw, k - 1), raw[k - 1..], 31)
  {
    var raw, start := link.target, Start(base, link.absolute);
    var head := raw[..k - 1];
    forall m | 0 <= m <= |head| ensures IsDir(t, At(start, head, m)) {
      assert head[..m] == raw[..m] && OnTheWay(base, start, raw, q, m);
      DirOnTheWay(t, base, l, link, q, At(start, raw, m));
    }
    WalkToLink(t, base, l, link);
    assert head[..0] == [] && head[0..] + raw[k - 1..] == raw && head[..|head|] == head;
    WalkText(t, start, head, 0, raw[k - 1..], 31);
  }

  // ---------------------------------------------------------------- a "." at the end

  /** If the text ends at q, q a file shows it. */
  lemma DotTree(base: Path, l: string, link: Entry, q: Path, k: nat, j: nat) returns (t: Tree)
    requires link.Link? && AllNames(base) && IsName(l) && l !in base && l !in link.target
    requires Escapes(base, Start(base, link.absolute), link.target, q, k, j)
    ensures Leads(t, base, l, link, q) && t[q] == File(true)
  {
    var raw, start, at := link.target, Start(base, link.absolute), base + [l];
    AtAvoids(start, raw, j, l);
    CleanNames(start, raw[..j]);
    assert at[|base|] == l && l in at;
    assert Tip({at, q}, at) && Tip({at, q}, q);
    GrownLeads({at, q}, base, l, link, q, File(true));
    t := Grown({at, q}, at, link, q, File(true));
    GrownAt({at, q}, at, link, q, File(true), q, |q|);
    assert q[..|q|] == q;
  }

  /** In place the "." behind the file fails. */
  lemma WalkToDot(t: Tree, base: Path, l: string, link: Entry, q: Path, k: nat, j: nat)
    requires Leads(t, base, l, link, q) && t[q].File?
    requires Escapes(base, Start(base, link.absolute), link.target, q, k, j)
    ensures Walk(t, [], base + [l], 32).Err?
  {
    var raw := link.target;
    WalkToQ(t, base, l, link, q, k, j);
    assert raw[k - 1..][0] == raw[k - 1] && raw[k - 1..][1..] == raw[k..];
    WalkStuck(t, q, raw[k..], 31);
  }

  /** The code stops at the file. */
  lemma ResolveToDot(t: Tree, base: Path, l: string, link: Entry, q: Path, k: nat, j: nat)
    requires Leads(t, base, l, link, q) && t[q].File? && AllNames(q)
    requires Escapes(base, Start(base, link.absolute), link.target, q, k, j) && link.target[j] != ".."
    ensures Resolve(t, base + [l]) == Ok(q)
  {
    var raw, start := link.target, Start(base, link.absolute);
    CleanOfNames([], base + [l]);
    assert [] + (base + [l]) == base + [l];
    ResolveToLink(t, base, l, link, 0);
    AtNext(start, raw, j);
    assert raw[..|raw|] == raw;
    ResolveStraight(t, q, 0, 1);
  }

  /** There the code stops at the file, and in place "." fails behind it. */
  lemma DotTells(base: Path, l: string, link: Entry, q: Path, k: nat, j: nat) returns (t: Tree)
    requires link.Link? && AllNames(base) && IsName(l) && l !in base && l !in link.target
    requires Escapes(base, Start(base, link.absolute), link.target, q, k, j) && link.target[j] != ".."
    ensures Setting(t, base, l, link)
    ensures Resolve(t, base + [l]) == Ok(q) && Walk(t, [], Clean(base + [l]), 32).Err?
  {
    t := DotTree(base, l, link, q, k, j);
    LeadsSetting(t, base, l, link, q);
    CleanNames(Start(base, link.absolute), link.target[..j]);
    CleanOfNames([], base + [l]);
    assert [] + (base + [l]) == base + [l];
    WalkToDot(t, base, l, link, q, k, j);
    ResolveToDot(t, base, l, link, q, k, j);
  }

  /** The code gets to the link and starts over from its text. */
  lemma {:induction false} ResolveToLink(t: Tree, base: Path, l: string, link: Entry, i: nat)
    requires Real(t, base) && base + [l] in t && t[base + [l]] == link && link.Link? && i <= |base|
    ensures ResolveFrom(t, base + [l], i, 0)
         == ResolveFrom(t, CleanOnto(Start(base, link.absolute), link.target), 0, 1)
    decreases |base| - i
  {
    var at, start := base + [l], Start(base, link.absolute);
    if i < |base| {
      assert at[..i + 1] == base[..i + 1];
      ResolveToLink(t, base, l, link, i + 1);
    } else {
      assert at[..i + 1] == at && at[..i] == base && Redirected(at, i, link) == start + link.target;
      CleanSplit([], start, link.target);
      CleanOfNames([], start);
      assert [] + start == start;
    }
  }

  lemma {:induction false} ResolveStraight(t: Tree, p: Path, i: nat, depth: nat)
    requires Straight(t, p) && i <= |p| && depth <= MAX_LINKS
    ensures ResolveFrom(t, p, i, depth) == Ok(p)
    decreases |p| - i
  {
    if i < |p| {
      assert i + 1 < |p| ==> p[..i + 1] == Up(p)[..i + 1];
      assert i + 1 == |p| ==> p[..i + 1] == p;
      ResolveStraight(t, p, i + 1, depth);
    }
  }

  // ---------------------------------------------------------------- a ".."

  /** n times the name f. */
  function Chain(f: string, n: nat): (p: Path)
    ensures |p| == n && forall i :: 0 <= i < n ==> p[i] == f
  {
    seq(n, i => f)
  }

  lemma ChainPrefix(f: string, n: nat, m: nat)
    requires m <= n
    ensures Chain(f, n)[..m] == Chain(f, m)
  {
  }

  /** Where a walk over raw[k..] from p comes along. */
  ghost function Visited(p: Path, raw: seq<string>, k: nat): set<Path>
    requires k <= |raw|
  {
    set i | k <= i <= |raw| :: CleanOnto(p, raw[k..i])
  }

  /** The link, q, the chain, and whatever the rest of raw meets there. */
  ghost function TrapEnds(at: Path, q: Path, chain: Path, raw: seq<string>, k: nat): set<Path>
    requires k <= |raw|
  {
    {at, q, chain} + Visited(chain, raw, k)
  }

  /** All the names that matter are where they should be. */
  ghost predicate Apart(base: Path, l: string, raw: seq<string>, f: string) {
    AllNames(base) && IsName(l) && IsName(f) && l != f && l !in base && l !in raw && f !in base && f !in raw
  }

  lemma {:induction false} CleanAvoids(cur: Path, raw: seq<string>, c: string)
    requires c !in cur && c !in raw
    ensures c !in CleanOnto(cur, raw)
    decreases raw
  {
    if raw != [] {
      CleanAvoids(Step(cur, raw[0]), raw[1..], c);
    }
  }

  lemma AtAvoids(cur: Path, raw: seq<string>, i: nat, c: string)
    requires c !in cur && c !in raw && i <= |raw|
    ensures c !in At(cur, raw, i)
  {
    CleanAvoids(cur, raw[..i], c);
  }

  /** Under the chain the text stays: fewer copies of f in front, at least one, and no f behind. */
  ghost predicate Under(p: Path, f: string, m: nat) {
    m <= |p| && p[..m] == Chain(f, m) && f !in p[m..]
  }

  lemma {:induction false} StaysUnder(p: Path, f: string, m: nat, raw: seq<string>) returns (n: nat)
    requires Under(p, f, m) && f !in raw && |raw| < m
    ensures 0 < n <= m && Under(CleanOnto(p, raw), f, n)
    decreases raw
  {
    if raw == [] {
      n := m;
    } else {
      var p', m' := StepUnder(p, f, m, raw[0]);
      n := StaysUnder(p', f, m', raw[1..]);
    }
  }

  lemma StepUnder(p: Path, f: string, m: nat, c: string) returns (p': Path, m': nat)
    requires Under(p, f, m) && c != f && m > 0
    ensures p' == Step(p, c) && m - 1 <= m' <= m && Under(p', f, m')
    ensures c == ".." && |p| == m ==> m' == m - 1
  {
    p', m' := Step(p, c), m;
    if c == ".." && |p| == m {
      m' := m - 1;
      assert p'[..m'] == p[..m][..m - 1];
      ChainPrefix(f, m, m - 1);
    } else if c == ".." {
      assert p'[..m] == p[..m] && p'[m..] == p[m..][..|p| - m - 1];
    } else if IsName(c) {
      assert p'[..m] == p[..m] && p'[m..] == p[m..] + [c];
    }
  }

  /** After the ".." the walk stands above the chain's end, and stays off it. */
  lemma OffTheEnd(f: string, raw: seq<string>, k: nat, j: nat, n: nat) returns (m: nat)
    requires k <= j < |raw| && raw[j] == ".." && f !in raw && n == |raw| + 2
    requires forall i :: k <= i < j ==> !Moves(raw[i])
    ensures 0 < m < n && Under(CleanOnto(Chain(f, n), raw[k..]), f, m)
  {
    var chain, dots, rest := Chain(f, n), raw[k..j], raw[j + 1..];
    assert raw[k..] == dots + ([".."] + rest);
    CleanSplit(chain, dots, [".."] + rest);
    SkipAll(chain, dots);
    assert ([".."] + rest)[1..] == rest;
    assert chain[..n] == chain;
    var p, m' := StepUnder(chain, f, n, "..");
    m := StaysUnder(p, f, m', rest);
  }

  lemma {:induction false} SkipAll(cur: Path, dots: seq<string>)
    requires forall i :: 0 <= i < |dots| ==> !Moves(dots[i])
    ensures CleanOnto(cur, dots) == cur
  {
    if dots != [] {
      SkipAll(cur, dots[1..]);
    }
  }

  /** q leads into the chain, and the rest of the text stays in directories under it. */
  ghost predicate Trapped(t: Tree, base: Path, l: string, link: Entry, q: Path, chain: Path, k: nat) {
    && Leads(t, base, l, link, q) && k <= |link.target|
    && t[q] == Link(true, chain) && Real(t, chain) && forall p :: p in Visited(chain, link.target, k) ==> IsDir(t, p)
  }

  lemma TrapHolds(base: Path, l: string, link: Entry, q: Path, f: string, k: nat, j: nat)
    returns (t: Tree, chain: Path)
    requires link.Link? && Apart(base, l, link.target, f)
    requires Escapes(base, Start(base, link.absolute), link.target, q, k, j)
    ensures chain == Chain(f, |link.target| + 2) && Trapped(t, base, l, link, q, chain, k)
  {
    var raw, at, start := link.target, base + [l], Start(base, link.absolute);
    chain := Chain(f, |raw| + 2);
    var ends, e := TrapEnds(at, q, chain, raw, k), Link(true, chain);
    AtAvoids(start, raw, k, l);
    AtAvoids(start, raw, k, f);
    CleanNames(start, raw[..k]);
    assert at[|base|] == l && l in at;
    UnderFresh(f, chain, raw, k);
    TrapTips(at, q, chain, raw, k, f);
    GrownLeads(ends, base, l, link, q, e);
    t := Grown(ends, at, link, q, e);
    GrownAt(ends, at, link, q, e, q, |q|);
    assert q[..|q|] == q;
    TrapDirs(at, link, q, chain, k, f);
  }

  lemma TrapTips(at: Path, q: Path, chain: Path, raw: seq<string>, k: nat, f: string)
    requires k <= |raw| && at != [] && q != [] && f !in at && f !in q && !(q <= at) && !(at <= q)
    requires forall p :: p in Visited(chain, raw, k) || p == chain ==> p != [] && p[0] == f
    ensures Tip(TrapEnds(at, q, chain, raw, k), q) && Tip(TrapEnds(at, q, chain, raw, k), at)
  {
    assert q[0] in q && at[0] in at;
  }

  lemma TrapDirs(at: Path, link: Entry, q: Path, chain: Path, k: nat, f: string)
    requires link.Link? && k <= |link.target| && f !in at && f !in q && AllNames(chain)
    requires forall p :: p in Visited(chain, link.target, k) || p == chain ==> p != [] && p[0] == f
    requires Hangs(Grown(TrapEnds(at, q, chain, link.target, k), at, link, q, Link(true, chain)))
    ensures var t: Tree := Grown(TrapEnds(at, q, chain, link.target, k), at, link, q, Link(true, chain));
            Real(t, chain) && forall p :: p in Visited(chain, link.target, k) ==> IsDir(t, p)
  {
    var ends, e := TrapEnds(at, q, chain, link.target, k), Link(true, chain);
    var t: Tree := Grown(ends, at, link, q, e);
    forall i | 0 < i <= |chain| ensures chain[..i] in t && t[chain[..i]].Dir? {
      GrownAt(ends, at, link, q, e, chain, i);
      assert chain[..i][0] == f;
    }
    forall p | p in Visited(chain, link.target, k) ensures IsDir(t, p) {
      GrownAt(ends, at, link, q, e, p, |p|);
      assert p[..|p|] == p && p[0] in p;
    }
  }

  /** Everything met under the chain begins with f. */
  lemma UnderFresh(f: string, chain: Path, raw: seq<string>, k: nat)
    requires k <= |raw| && chain == Chain(f, |raw| + 2) && f !in raw
    ensures forall p :: p in Visited(chain, raw, k) ==> p != [] && p[0] == f
  {
    forall p | p in Visited(chain, raw, k) ensures p != [] && p[0] == f {
      var i :| k <= i <= |raw| && p == CleanOnto(chain, raw[k..i]);
      assert chain[..|chain|] == chain && forall c :: c in raw[k..i] ==> c in raw;
      var n := StaysUnder(chain, f, |chain|, raw[k..i]);
      assert p[0] == p[..n][0];
    }
  }

  /** In place the walk follows the trap and ends where the text leads from the chain's end. */
  lemma WalkTrapped(t: Tree, base: Path, l: string, link: Entry, q: Path, chain: Path, k: nat, j: nat)
    requires Trapped(t, base, l, link, q, chain, k)
    requires Escapes(base, Start(base, link.absolute), link.target, q, k, j)
    ensures Walk(t, [], base + [l], 32) == Ok(CleanOnto(chain, link.target[k..]))
  {
    var raw, start, tail := link.target, Start(base, link.absolute), link.target[k..];
    WalkToQ(t, base, l, link, q, k, j);
    assert raw[k - 1..][0] == raw[k - 1] && raw[k - 1..][1..] == tail;
    assert Walk(t, At(start, raw, k - 1), raw[k - 1..], 31) == Walk(t, [], chain + tail, 30);
    assert chain[..0] == [] && chain[0..] == chain;
    WalkReal(t, chain, 0, tail, 30);
    forall m | 0 <= m <= |tail| ensures IsDir(t, At(chain, tail, m)) {
      assert tail[..m] == raw[k..k + m];
      assert At(chain, tail, m) in Visited(chain, raw, k);
    }
    assert tail[..0] == [] && tail[0..] + [] == tail && tail[..|tail|] == tail;
    WalkText(t, chain, tail, 0, [], 30);
  }

  // ---------------------------------------------------------------- the code in the trap

  /** Free of fresh directories, or all the way down the chain. */
  ghost predicate AllOrNothing(p: Path, f: string, chain: Path) {
    f !in p || chain <= p
  }

  /** The chain is made of a name found nowhere else. */
  ghost predicate Fresh(base: Path, l: string, link: Entry, q: Path, f: string, chain: Path)
    requires link.Link?
  {
    && AllNames(chain) && |chain| > 0 && (forall c :: c in chain ==> c == f)
    && f !in base + [l] && f !in link.target && f !in q
  }

  lemma {:induction false} RestartAvoids(t: Tree, base: Path, l: string, link: Entry, q: Path, f: string,
                                         chain: Path, k: nat, p: Path, i: nat, depth: nat)
    requires Trapped(t, base, l, link, q, chain, k) && AllNames(p) && i <= |p|
    requires Fresh(base, l, link, q, f, chain) && AllOrNothing(p, f, chain)
    ensures ResolveFrom(t, p, i, depth).Ok? ==> AllOrNothing(ResolveFrom(t, p, i, depth).value, f, chain)
    decreases if depth > MAX_LINKS then 0 else MAX_LINKS + 1 - depth, |p| - i
  {
    if depth <= MAX_LINKS && i < |p| && p[..i + 1] in t {
      var next := p[..i + 1];
      if t[next].Link? {
        var raw := Redirected(p, i, t[next]);
        RedirectAvoids(t, base, l, link, q, f, chain, k, p, i);
        CleanNames([], raw);
        RestartAvoids(t, base, l, link, q, f, chain, k, Clean(raw), 0, depth + 1);
      } else {
        RestartAvoids(t, base, l, link, q, f, chain, k, p, i + 1, depth);
      }
    }
  }

  lemma RedirectAvoids(t: Tree, base: Path, l: string, link: Entry, q: Path, f: string, chain: Path, k: nat,
                       p: Path, i: nat)
    requires Trapped(t, base, l, link, q, chain, k) && AllNames(p) && i < |p| && p[..i + 1] in t && t[p[..i + 1]].Link?
    requires Fresh(base, l, link, q, f, chain) && AllOrNothing(p, f, chain)
    ensures AllOrNothing(Clean(Redirected(p, i, t[p[..i + 1]])), f, chain)
  {
    var next := p[..i + 1];
    assert chain[0] in chain && next[0] == p[0] && next[0] in next;
    assert f !in p;
    var raw := Redirected(p, i, t[next]);
    if next == q {
      assert AllNames(p[i + 1..]) && AllNames(raw);
      CleanOfNames([], raw);
      assert [] + raw == raw;
    } else {
      CleanAvoids([], raw, f);
    }
  }

  lemma NotAllOrNothing(p: Path, f: string, chain: Path, m: nat)
    requires Under(p, f, m) && 0 < m < |chain| && chain == Chain(f, |chain|)
    ensures !AllOrNothing(p, f, chain)
  {
    assert p[0] == p[..m][0] == f;
    assert chain[m] == f;
    if m < |p| {
      assert p[m] == p[m..][0] && p[m] in p[m..];
    }
  }

  /** In place the link leads off the chain's end, restarting it never does. */
  lemma TrapTells(base: Path, l: string, link: Entry, q: Path, f: string, k: nat, j: nat) returns (t: Tree)
    requires link.Link? && Apart(base, l, link.target, f)
    requires Escapes(base, Start(base, link.absolute), link.target, q, k, j) && link.target[j] == ".."
    ensures Setting(t, base, l, link) && Resolve(t, base + [l]) != Walk(t, [], Clean(base + [l]), 32)
  {
    var raw, at, chain := link.target, base + [l], [];
    t, chain := TrapHolds(base, l, link, q, f, k, j);
    LeadsSetting(t, base, l, link, q);
    CleanOfNames([], at);
    assert [] + at == at;
    WalkTrapped(t, base, l, link, q, chain, k, j);
    var m := OffTheEnd(f, raw, k, j, |raw| + 2);
    NotAllOrNothing(CleanOnto(chain, raw[k..]), f, chain, m);
    AtAvoids(Start(base, link.absolute), raw, k, f);
    RestartAvoids(t, base, l, link, q, f, chain, k, at, 0, 0);
  }

  // ---------------------------------------------------------------- both together

  /** For every other text there is a tree in which the link leads elsewhere, or only one of both ways anywhere. */
  lemma Diverges(base: Path, link: Entry) returns (t: Tree, l: string)
    requires AllNames(base) && link.Link? && !AsksAbove(base, Start(base, link.absolute), link.target)
    ensures Setting(t, base, l, link) && Resolve(t, base + [l]) != Walk(t, [], Clean(base + [l]), 32)
  {
    var q, k, j := FindEscape(base, Start(base, link.absolute), link.target);
    var f;
    l, f := FreshNames(base, link.target);
    if link.target[j] == ".." {
      t := TrapTells(base, l, link, q, f, k, j);
    } else {
      t := DotTells(base, l, link, q, k, j);
    }
  }

  /**
   A link's text is resolved as an in-place walk would, for every path of every tree in which the
   other links are tidy, exactly when every ".." of it, and a "." or empty component at its end, is
   taken in the link's directory or one above it.
   */
  lemma TextExactly(base: Path, link: Entry)
    requires AllNames(base) && link.Link?
    ensures (forall t: Tree, l, q :: Setting(t, base, l, link) ==> Resolve(t, q) == Walk(t, [], Clean(q), 32))
       <==> AsksAbove(base, Start(base, link.absolute), link.target)
  {
    if AsksAbove(base, Start(base, link.absolute), link.target) {
      forall t: Tree, l, q | Setting(t, base, l, link) ensures Resolve(t, q) == Walk(t, [], Clean(q), 32) {
        BackedSetting(t, base, l, link);
        ResolveIsWalk(t, q);
      }
    } else {
      var t, l := Diverges(base, link);
    }
  }
}
