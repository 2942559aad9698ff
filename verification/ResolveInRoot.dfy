/**
 Resolving a path inside a container root. Paths are component lists; a raw list may hold
 empty, "." and ".." components, a resolved one holds names only.
 */
module ResolveInRoot {
  import opened Wrappers

  type Path = seq<string>

  /** What lstat finds: a symbolic link, a directory, or a file of any other kind. */
  datatype Entry = Link(absolute: bool, target: seq<string>) | Dir | File(executable: bool)

  predicate IsDir(t: map<Path, Entry>, p: Path) {
    p == [] || (p in t && t[p].Dir?)
  }

  /** Everything hangs in a directory. */
  ghost predicate Hangs(t: map<Path, Entry>) {
    [] !in t && forall p: Path, c: string :: p + [c] in t ==> IsDir(t, p)
  }

  /** Everything under the root but the root itself. */
  type Tree = t: map<Path, Entry> | Hangs(t) witness map[]

  predicate IsName(c: string) {
    c != "" && c != "." && c != ".."
  }

  predicate AllNames(p: Path) {
    forall i :: 0 <= i < |p| ==> IsName(p[i])
  }

  function Up(p: Path): Path {
    if p == [] then [] else p[..|p| - 1]
  }

  /** filepath.Clean on top of the cleaned path base. */
  function CleanOnto(base: Path, raw: seq<string>): (p: Path)
    decreases raw
  {
    if raw == [] then base
    else if IsName(raw[0]) then CleanOnto(base + [raw[0]], raw[1..])
    else if raw[0] == ".." then CleanOnto(Up(base), raw[1..])
    else CleanOnto(base, raw[1..])
  }

  function Clean(raw: seq<string>): Path {
    CleanOnto([], raw)
  }

  /** One component: "" and "." stay, ".." goes up but not above the root, anything else goes down. */
  lemma CleanOne(base: Path, c: string)
    ensures CleanOnto(base, [c]) ==
              if c == "" || c == "." then base
              else if c == ".." then (if base == [] then [] else base[..|base| - 1])
              else base + [c]
  {
    assert [c][1..] == [];
  }

  lemma {:induction false} CleanNames(base: Path, raw: seq<string>)
    requires AllNames(base)
    ensures AllNames(CleanOnto(base, raw))
    decreases raw
  {
    if raw != [] {
      CleanNames(if IsName(raw[0]) then base + [raw[0]] else if raw[0] == ".." then Up(base) else base, raw[1..]);
    }
  }

  lemma {:induction false} CleanOfNames(base: Path, p: Path)
    requires AllNames(p)
    ensures CleanOnto(base, p) == base + p
    decreases p
  {
    if p == [] {
      assert base + p == base;
    } else {
      CleanOfNames(base + [p[0]], p[1..]);
      assert base + [p[0]] + p[1..] == base + p;
    }
  }

  lemma {:induction false} CleanSplit(base: Path, a: seq<string>, b: seq<string>)
    ensures CleanOnto(base, a + b) == CleanOnto(CleanOnto(base, a), b)
    decreases a
  {
    if a == [] {
      assert a + b == b;
    } else {
      assert (a + b)[1..] == a[1..] + b && (a + b)[0] == a[0];
      CleanSplit(if IsName(a[0]) then base + [a[0]] else if a[0] == ".." then Up(base) else base, a[1..], b);
    }
  }

  // ---------------------------------------------------------------- the code's way: restart after each link

  const MAX_LINKS: nat := 32

  /** Where the target of the link at p[..i + 1] leads, with what is left of p behind it. */
  function Redirected(p: Path, i: nat, l: Entry): (q: seq<string>)
    requires i < |p| && l.Link?
  {
    (if l.absolute then l.target else p[..i] + l.target) + p[i + 1..]
  }

  /** The loop of resolveInRoot from component i on, at some depth. */
  function ResolveFrom(t: Tree, p: Path, i: nat, depth: nat): Result<Path>
    requires i <= |p|
    decreases if depth > MAX_LINKS then 0 else MAX_LINKS + 1 - depth, |p| - i
  {
    if depth > MAX_LINKS then Err
    else if i == |p| then Ok(p)
    else if p[..i + 1] !in t then Err
    else if t[p[..i + 1]].Link? then ResolveFrom(t, Clean(Redirected(p, i, t[p[..i + 1]])), 0, depth + 1)
    else ResolveFrom(t, p, i + 1, depth)
  }

  function Resolve(t: Tree, raw: seq<string>): Result<Path> {
    ResolveFrom(t, Clean(raw), 0, 0)
  }

  /** resolveInRoot as it runs. */
  method ResolvePath(t: Tree, raw: seq<string>, depth: nat) returns (r: Result<Path>)
    requires depth <= MAX_LINKS + 1
    ensures r == ResolveFrom(t, Clean(raw), 0, depth)
    decreases MAX_LINKS + 1 - depth
  {
    if depth > MAX_LINKS {
      return Err;
    }
    var comps := Clean(raw);
    var cur: Path := [];
    for i := 0 to |comps|
      invariant cur == comps[..i]
      invariant ResolveFrom(t, comps, 0, depth) == ResolveFrom(t, comps, i, depth)
    {
      cur := cur + [comps[i]];
      assert cur == comps[..i + 1];
      if cur !in t {
        return Err;
      }
      if t[cur].Link? {
        assert Up(cur) == comps[..i];
        var target := if t[cur].absolute then t[cur].target else Up(cur) + t[cur].target;
        r := ResolvePath(t, target + comps[i + 1..], depth + 1);
        return;
      }
    }
    assert cur == comps;
    r := Ok(cur);
  }

  // ---------------------------------------------------------------- the ordinary way: walk in place

  function Step(cur: Path, c: string): Path {
    if IsName(c) then cur + [c] else if c == ".." then Up(cur) else cur
  }

  /**
   cur is where the walk stands; todo is still ahead; links may be expanded that many more times.
   Whatever comes behind a file fails: a name is not there, and "..", "." and "" ask for a directory.
   */
  function Walk(t: Tree, cur: Path, todo: seq<string>, links: nat): Result<Path>
    decreases links, |todo|
  {
    if todo == [] then Ok(cur)
    else if !IsName(todo[0]) then
      if IsDir(t, cur) then Walk(t, Step(cur, todo[0]), todo[1..], links) else Err
    else
      var next := cur + [todo[0]];
      if next !in t then Err
      else if !t[next].Link? then Walk(t, next, todo[1..], links)
      else if links == 0 then Err
      else Walk(t, if t[next].absolute then [] else cur, t[next].target + todo[1..], links - 1)
  }

  /** In place one component does the same, if the walk stands in a directory and no link is there. */
  lemma WalkOne(t: Tree, cur: Path, c: string, links: nat)
    requires IsDir(t, cur) && (cur + [c] in t ==> !t[cur + [c]].Link?)
    ensures Walk(t, cur, [c], links) ==
              if c == "" || c == "." then Ok(cur)
              else if c == ".." then Ok(if cur == [] then [] else cur[..|cur| - 1])
              else if cur + [c] in t then Ok(cur + [c])
              else Err
  {
    assert [c][1..] == [];
  }

  /** Component j of raw asks for a directory where it is taken: it is a "..", or it ends the text and is no name. */
  predicate AsksDir(raw: seq<string>, j: nat) {
    j < |raw| && (raw[j] == ".." || (j == |raw| - 1 && !IsName(raw[j])))
  }

  /** Behind a name nothing asks for a directory. */
  predicate Tidy(raw: seq<string>) {
    forall i, j :: 0 <= i < j < |raw| && IsName(raw[i]) ==> !AsksDir(raw, j)
  }

  ghost predicate TidyLinks(t: Tree) {
    forall p :: p in t && t[p].Link? ==> Tidy(t[p].target)
  }

  /** p leads through real directories only. */
  predicate Real(t: Tree, p: Path) {
    AllNames(p) && forall i :: 0 < i <= |p| ==> p[..i] in t && t[p[..i]].Dir?
  }

  /** p leads through real directories to something that is no link. */
  predicate Straight(t: Tree, p: Path) {
    AllNames(p) && Real(t, Up(p)) && (p == [] || (p in t && !t[p].Link?))
  }

  /** Taken from base, whatever asks for a directory in raw stands on a real one, and no link leads there. */
  predicate Backed(t: Tree, base: Path, raw: seq<string>)
    decreases raw
  {
    raw == [] || ((AsksDir(raw, 0) ==> Real(t, base)) && Backed(t, Step(base, raw[0]), raw[1..]))
  }

  /** Where a relative or absolute target of the link at p starts from. */
  function StartOf(p: Path, l: Entry): Path
    requires l.Link?
  {
    if l.absolute then [] else Up(p)
  }

  /** All links that can be reached are backed so. */
  ghost predicate BackedLinks(t: Tree) {
    forall p :: p in t && t[p].Link? && Real(t, Up(p)) ==> Backed(t, StartOf(p, t[p]), t[p].target)
  }

  lemma RealNext(t: Tree, p: Path, c: string)
    requires Real(t, p) && IsName(c) && p + [c] in t && t[p + [c]].Dir?
    ensures Real(t, p + [c])
  {
    var next := p + [c];
    forall k | 0 < k <= |next| ensures next[..k] in t && t[next[..k]].Dir? {
      if k <= |p| {
        assert next[..k] == p[..k];
      } else {
        assert next[..k] == next;
      }
    }
  }

  lemma RealUp(t: Tree, p: Path)
    requires Real(t, p)
    ensures Real(t, Up(p))
  {
    if p != [] {
      forall i | 0 < i <= |Up(p)| ensures Up(p)[..i] == p[..i] {
      }
    }
  }

  lemma RealIsDir(t: Tree, p: Path)
    requires Real(t, p)
    ensures IsDir(t, p)
  {
    assert p[..|p|] == p;
  }

  /** One more component of a path: the next thing found, in a directory by its nature. */
  lemma StraightNext(t: Tree, p: Path, i: nat)
    requires AllNames(p) && i < |p| && Straight(t, p[..i]) && p[..i + 1] in t
    ensures Real(t, p[..i]) && Up(p[..i + 1]) == p[..i] && p[..i] + [p[i]] == p[..i + 1]
    ensures !t[p[..i + 1]].Link? ==> Straight(t, p[..i + 1])
  {
    var cur := p[..i];
    assert cur + [p[i]] == p[..i + 1] && IsDir(t, cur);
    if i > 0 {
      assert Up(cur) + [p[i - 1]] == cur;
      RealNext(t, Up(cur), p[i - 1]);
    }
    assert Up(p[..i + 1]) == cur;
  }

  /** Walking down real directories gets there without expanding anything. */
  lemma {:induction false} WalkReal(t: Tree, p: Path, i: nat, rest: seq<string>, links: nat)
    requires Real(t, p) && i <= |p|
    ensures Walk(t, p[..i], p[i..] + rest, links) == Walk(t, p, rest, links)
    decreases |p| - i
  {
    if i == |p| {
      assert p[..i] == p && p[i..] + rest == rest;
    } else {
      var todo := p[i..] + rest;
      assert todo[0] == p[i] && todo[1..] == p[i + 1..] + rest && p[..i] + [p[i]] == p[..i + 1];
      WalkReal(t, p, i + 1, rest, links);
    }
  }

  /** Names and "..". */
  predicate Moves(c: string) {
    IsName(c) || c == ".."
  }

  /** The list without its empty and "." components. */
  function Squeeze(a: seq<string>): seq<string> {
    if a == [] then [] else (if Moves(a[0]) then [a[0]] else []) + Squeeze(a[1..])
  }

  lemma {:induction false} SqueezeConcat(a: seq<string>, b: seq<string>)
    ensures Squeeze(a + b) == Squeeze(a) + Squeeze(b)
  {
    if a == [] {
      assert a + b == b;
    } else {
      assert (a + b)[1..] == a[1..] + b;
      SqueezeConcat(a[1..], b);
    }
  }

  lemma {:induction false} SqueezeTwice(a: seq<string>)
    ensures Squeeze(Squeeze(a)) == Squeeze(a)
  {
    if a != [] {
      SqueezeTwice(a[1..]);
      assert [] + Squeeze(a[1..]) == Squeeze(a[1..]);
    }
  }

  /** After a link: the same target in front, squeezed or not. */
  lemma SqueezeBehind(target: seq<string>, rest: seq<string>)
    ensures Squeeze(target + Squeeze(rest)) == Squeeze(target + rest)
  {
    SqueezeConcat(target, Squeeze(rest));
    SqueezeConcat(target, rest);
    SqueezeTwice(rest);
  }

  /** The list ends in something that moves, if it does not end at once. */
  predicate EndsMoving(a: seq<string>) {
    a == [] || Moves(a[|a| - 1])
  }

  lemma {:induction false} SqueezeEnds(a: seq<string>)
    requires a != [] && EndsMoving(a)
    ensures Squeeze(a) != [] && EndsMoving(Squeeze(a)) && forall i :: 0 <= i < |Squeeze(a)| ==> Moves(Squeeze(a)[i])
  {
    if |a| > 1 {
      SqueezeEnds(a[1..]);
    }
  }

  /** Behind a file everything fails. */
  lemma WalkStuck(t: Tree, cur: Path, todo: seq<string>, links: nat)
    requires todo != [] && !IsDir(t, cur)
    ensures Walk(t, cur, todo, links).Err?
  {
  }

  /** A walk does not care about empty and "." components that something else follows. */
  lemma {:induction false} WalkSqueezed(t: Tree, cur: Path, todo: seq<string>, links: nat)
    requires EndsMoving(todo)
    ensures Walk(t, cur, todo, links) == Walk(t, cur, Squeeze(todo), links)
    decreases links, |todo|
  {
    if todo != [] {
      var c, rest := todo[0], todo[1..];
      SqueezeEnds(todo);
      if !IsDir(t, cur) {
        WalkStuck(t, cur, todo, links);
        WalkStuck(t, cur, Squeeze(todo), links);
      } else if !IsName(c) {
        WalkSqueezed(t, Step(cur, c), rest, links);
        assert c == ".." ==> Squeeze(todo)[1..] == Squeeze(rest);
        assert c != ".." ==> Squeeze(todo) == Squeeze(rest);
      } else {
        WalkNameSqueezed(t, cur, todo, links);
      }
    }
  }

  lemma {:induction false} WalkNameSqueezed(t: Tree, cur: Path, todo: seq<string>, links: nat)
    requires EndsMoving(todo) && todo != [] && IsName(todo[0])
    ensures Walk(t, cur, todo, links) == Walk(t, cur, Squeeze(todo), links)
    decreases links, |todo|, 0
  {
    var rest, next := todo[1..], cur + [todo[0]];
    assert Squeeze(todo)[0] == todo[0] && Squeeze(todo)[1..] == Squeeze(rest);
    if next in t && !t[next].Link? {
      WalkSqueezed(t, next, rest, links);
    } else if next in t && links > 0 && rest != [] {
      var from, target := if t[next].absolute then [] else cur, t[next].target;
      SqueezeEnds(rest);
      SqueezeBehind(target, rest);
      WalkSqueezed(t, from, target + rest, links - 1);
      WalkSqueezed(t, from, target + Squeeze(rest), links - 1);
    }
  }

  lemma {:induction false} SqueezeNames(a: seq<string>)
    requires ".." !in a
    ensures AllNames(Squeeze(a))
  {
    if a != [] {
      SqueezeNames(a[1..]);
    }
  }

  lemma {:induction false} CleanSqueezes(base: Path, a: seq<string>)
    requires ".." !in a
    ensures CleanOnto(base, a) == base + Squeeze(a)
    decreases a
  {
    if a == [] {
      assert base + [] == base;
    } else if IsName(a[0]) {
      CleanSqueezes(base + [a[0]], a[1..]);
      assert base + [a[0]] + Squeeze(a[1..]) == base + Squeeze(a);
    } else {
      CleanSqueezes(base, a[1..]);
      assert [] + Squeeze(a[1..]) == Squeeze(a[1..]);
    }
  }

  /** Something in raw asks for a directory. */
  predicate Asks(raw: seq<string>) {
    ".." in raw || (raw != [] && !IsName(raw[|raw| - 1]))
  }

  /** Starting over from the cleaned path gets where going on in place gets, if nothing asks for a directory. */
  lemma NamesOnto(t: Tree, base: Path, a: seq<string>, rest: Path, links: nat)
    requires Real(t, base) && AllNames(rest) && !Asks(a)
    ensures Walk(t, [], CleanOnto(base, a + rest), links) == Walk(t, base, a + rest, links)
  {
    var todo := a + rest;
    assert ".." !in todo;
    SqueezeNames(todo);
    CleanSqueezes(base, todo);
    WalkSqueezed(t, base, todo, links);
    assert base[..0] == [] && base[0..] == base;
    WalkReal(t, base, 0, Squeeze(todo), links);
  }

  /** Before something that asks for a directory the path so far is real. */
  lemma {:induction false} RealAlong(t: Tree, base: Path, raw: seq<string>)
    requires Backed(t, base, raw) && Asks(raw)
    ensures Real(t, base)
    decreases raw
  {
    if !AsksDir(raw, 0) {
      RealAlong(t, Step(base, raw[0]), raw[1..]);
      if IsName(raw[0]) {
        RealUp(t, base + [raw[0]]);
      }
    }
  }

  /** The same with a backed target: what it asks of the tree is there. */
  lemma {:induction false} TargetOnto(t: Tree, base: Path, target: seq<string>, rest: Path, links: nat)
    requires Real(t, base) && Backed(t, base, target) && AllNames(rest)
    ensures Walk(t, [], CleanOnto(base, target + rest), links) == Walk(t, base, target + rest, links)
    decreases target
  {
    if !Asks(target) {
      NamesOnto(t, base, target, rest, links);
    } else {
      StepOnto(t, base, target, rest, links);
      TargetOnto(t, Step(base, target[0]), target[1..], rest, links);
    }
  }

  /** As long as something asks for a directory, both move on together, and stay in real ones. */
  lemma StepOnto(t: Tree, base: Path, target: seq<string>, rest: Path, links: nat)
    requires Real(t, base) && Backed(t, base, target) && Asks(target)
    ensures Real(t, Step(base, target[0]))
    ensures CleanOnto(base, target + rest) == CleanOnto(Step(base, target[0]), target[1..] + rest)
    ensures Walk(t, base, target + rest, links) == Walk(t, Step(base, target[0]), target[1..] + rest, links)
  {
    var todo, c := target + rest, target[0];
    assert todo[0] == c && todo[1..] == target[1..] + rest;
    if IsName(c) {
      RealAlong(t, base + [c], target[1..]);
      assert (base + [c])[..|base| + 1] == base + [c];
    } else {
      RealIsDir(t, base);
      RealUp(t, base);
    }
  }

  lemma RedirectOnto(t: Tree, p: Path, i: nat, links: nat)
    requires BackedLinks(t) && AllNames(p) && i < |p| && Real(t, p[..i]) && p[..i + 1] in t && t[p[..i + 1]].Link?
    ensures var l := t[p[..i + 1]];
            Walk(t, [], Clean(Redirected(p, i, l)), links)
            == Walk(t, if l.absolute then [] else p[..i], l.target + p[i + 1..], links)
  {
    var l := t[p[..i + 1]];
    var base := if l.absolute then [] else p[..i];
    assert Up(p[..i + 1]) == p[..i];
    TargetOnto(t, base, l.target, p[i + 1..], links);
    assert Redirected(p, i, l) == base + (l.target + p[i + 1..]);
    CleanSplit([], base, l.target + p[i + 1..]);
    CleanOfNames([], base);
    assert [] + base == base;
  }

  lemma {:induction false} RestartIsWalk(t: Tree, p: Path, i: nat, depth: nat)
    requires BackedLinks(t) && AllNames(p) && i <= |p| && Straight(t, p[..i]) && depth <= MAX_LINKS
    ensures ResolveFrom(t, p, i, depth) == Walk(t, p[..i], p[i..], MAX_LINKS - depth)
    decreases MAX_LINKS - depth, |p| - i
  {
    if i == |p| {
      assert p[..i] == p;
    } else {
      var next := p[..i + 1];
      assert p[i..][0] == p[i] && p[i..][1..] == p[i + 1..] && p[..i] + [p[i]] == next;
      if next in t {
        StraightNext(t, p, i);
        if !t[next].Link? {
          RestartIsWalk(t, p, i + 1, depth);
        } else if depth < MAX_LINKS {
          var q := Clean(Redirected(p, i, t[next]));
          CleanNames([], Redirected(p, i, t[next]));
          RedirectOnto(t, p, i, MAX_LINKS - depth - 1);
          assert q[..0] == [] && q[0..] == q;
          RestartIsWalk(t, q, 0, depth + 1);
        }
      }
    }
  }

  /**
   Restarting from the root after every link finds what an in-place walk that may expand 32
   links finds, and fails exactly when that walk fails, if every ".." of every link, and every
   "." or empty component a link ends in, is taken in a real directory no link leads to.
   */
  lemma ResolveIsWalk(t: Tree, raw: seq<string>)
    requires BackedLinks(t)
    ensures Resolve(t, raw) == Walk(t, [], Clean(raw), 32)
  {
    CleanNames([], raw);
    var p := Clean(raw);
    assert p[..0] == [] && p[0..] == p;
    RestartIsWalk(t, p, 0, 0);
  }

  lemma {:induction false} NothingAskedBacked(t: Tree, base: Path, raw: seq<string>)
    requires !Asks(raw)
    ensures Backed(t, base, raw)
    decreases raw
  {
    if raw != [] {
      NothingAskedBacked(t, Step(base, raw[0]), raw[1..]);
    }
  }

  /** Leading dots only ever ask for the directories above the link. */
  lemma {:induction false} TidyBacked(t: Tree, base: Path, raw: seq<string>)
    requires Real(t, base) && Tidy(raw)
    ensures Backed(t, base, raw)
    decreases raw
  {
    if raw != [] {
      TidyTail(raw);
      if IsName(raw[0]) {
        NothingAskedBacked(t, base + [raw[0]], raw[1..]);
      } else {
        RealUp(t, base);
        TidyBacked(t, Step(base, raw[0]), raw[1..]);
      }
    }
  }

  lemma TidyTail(raw: seq<string>)
    requires raw != [] && Tidy(raw)
    ensures Tidy(raw[1..]) && (IsName(raw[0]) ==> !Asks(raw[1..]))
  {
    var tail := raw[1..];
    assert forall j :: 0 <= j < |tail| ==> tail[j] == raw[j + 1];
    forall i, j | 0 <= i < j < |tail| && IsName(tail[i]) ensures !AsksDir(tail, j) {
      assert !AsksDir(raw, j + 1);
    }
    if IsName(raw[0]) && Asks(tail) {
      var j: nat :| j < |tail| && (tail[j] == ".." || (j == |tail| - 1 && !IsName(tail[j])));
      assert AsksDir(raw, j + 1);
    }
  }

  /** So links with dots only in front do. */
  lemma TidyIsBacked(t: Tree)
    requires TidyLinks(t)
    ensures BackedLinks(t)
  {
    forall p | p in t && t[p].Link? && Real(t, Up(p)) ensures Backed(t, StartOf(p, t[p]), t[p].target) {
      TidyBacked(t, StartOf(p, t[p]), t[p].target);
    }
  }

  /** What is found is a path of names through real directories: no "..", no link, not even at its end. */
  lemma {:induction false} FoundIsStraight(t: Tree, p: Path, i: nat, depth: nat)
    requires AllNames(p) && i <= |p| && Straight(t, p[..i]) && ResolveFrom(t, p, i, depth).Ok?
    ensures Straight(t, ResolveFrom(t, p, i, depth).value)
    decreases if depth > MAX_LINKS then 0 else MAX_LINKS + 1 - depth, |p| - i
  {
    if i == |p| {
      assert p[..i] == p;
    } else {
      var next := p[..i + 1];
      StraightNext(t, p, i);
      if t[next].Link? {
        var q := Clean(Redirected(p, i, t[next]));
        if !t[next].absolute {
          assert AllNames(p[..i]);
        }
        CleanNames([], Redirected(p, i, t[next]));
        FoundIsStraight(t, q, 0, depth + 1);
      } else {
        FoundIsStraight(t, p, i + 1, depth);
      }
    }
  }

  lemma ResolveFindsStraight(t: Tree, raw: seq<string>)
    requires Resolve(t, raw).Ok?
    ensures Straight(t, Resolve(t, raw).value)
  {
    CleanNames([], raw);
    FoundIsStraight(t, Clean(raw), 0, 0);
  }

  // ---------------------------------------------------------------- PATH

  /** What an in-place walk would run. */
  ghost predicate WalkRuns(t: Tree, candidate: seq<string>) {
    var r := Walk(t, [], Clean(candidate), 32);
    r.Ok? && r.value in t && t[r.value] == File(true)
  }

  /** k is the first PATH entry, empty ones aside, in which the name is found. */
  ghost predicate FirstIn(t: Tree, dirs: seq<seq<string>>, name: string, k: nat) {
    && k < |dirs| && dirs[k] != [] && WalkRuns(t, dirs[k] + [name])
    && forall j :: 0 <= j < k ==> dirs[j] == [] || !WalkRuns(t, dirs[j] + [name])
  }

  /** lookPathInRoot for a bare name: the first PATH entry whose candidate an in-place walk would run. */
  method LookPath(t: Tree, dirs: seq<seq<string>>, name: string) returns (r: Result<seq<string>>)
    requires BackedLinks(t)
    ensures r.Ok? ==> exists k: nat :: FirstIn(t, dirs, name, k) && r.value == dirs[k] + [name]
    ensures r.Err? ==> forall k :: 0 <= k < |dirs| ==> dirs[k] == [] || !WalkRuns(t, dirs[k] + [name])
  {
    for k := 0 to |dirs|
      invariant forall j :: 0 <= j < k ==> dirs[j] == [] || !WalkRuns(t, dirs[j] + [name])
    {
      if dirs[k] == [] {
        continue;
      }
      var candidate := dirs[k] + [name];
      var found := ResolvePath(t, candidate, 0);
      ResolveIsWalk(t, candidate);
      if found.Err? || found.value !in t || t[found.value] != File(true) {
        continue;
      }
      assert FirstIn(t, dirs, name, k);
      return Ok(candidate);
    }
    r := Err;
  }
}
