/** Unix `path/filepath`: Clean, Join, Base, Dir, Ext and Rel, defined on the
    component list of a path the way Go defines them on its text. */
module Paths {
  import opened Strings

  predicate Rooted(p: string) {
    HasPrefix(p, "/")
  }

  /** One component met by Clean: "" and "." vanish, ".." cancels the component
      before it, and is dropped at the root. */
  function Push(rooted: bool, stack: seq<string>, c: string): seq<string> {
    if c == "" || c == "." then stack
    else if c == ".." then
      if stack != [] && stack[|stack| - 1] != ".." then stack[..|stack| - 1]
      else if rooted then stack
      else stack + [c]
    else stack + [c]
  }

  function Walk(rooted: bool, stack: seq<string>, parts: seq<string>): seq<string>
    decreases parts
  {
    if parts == [] then stack else Walk(rooted, Push(rooted, stack, parts[0]), parts[1..])
  }

  /** The components left after cleaning. */
  function Components(p: string): seq<string> {
    Walk(Rooted(p), [], Split(p, '/'))
  }

  function Clean(p: string): string {
    var cs := Components(p);
    if Rooted(p) then "/" + Join(cs, '/')
    else if cs == [] then "."
    else Join(cs, '/')
  }

  /** `filepath.Join`: empty elements are ignored, the rest is joined and cleaned. */
  function JoinPath(a: string, b: string): string {
    if a == "" && b == "" then ""
    else if a == "" then Clean(b)
    else if b == "" then Clean(a)
    else Clean(a + "/" + b)
  }

  function JoinPath3(a: string, b: string, c: string): string {
    if a == "" then JoinPath(b, c)
    else if b == "" then JoinPath(a, c)
    else JoinPath(a + "/" + b, c)
  }

  function StripTrailingSlashes(p: string): string {
    if p != "" && p[|p| - 1] == '/' then StripTrailingSlashes(p[..|p| - 1]) else p
  }

  function Last(xs: seq<string>): string
    requires xs != []
  {
    xs[|xs| - 1]
  }

  function Base(p: string): string {
    if p == "" then "."
    else
      var t := StripTrailingSlashes(p);
      if t == "" then "/" else Last(Split(t, '/'))
  }

  /** Everything up to the final slash, cleaned. */
  function Dir(p: string): string {
    var parts := Split(p, '/');
    if |parts| == 1 then "."
    else Clean(Join(parts[..|parts| - 1], '/') + "/")
  }

  function CommonPrefix(a: seq<string>, b: seq<string>): (k: nat)
    ensures k <= |a| && k <= |b| && a[..k] == b[..k]
    ensures k < |a| && k < |b| ==> a[k] != b[k]
  {
    if a != [] && b != [] && a[0] == b[0] then
      var k := CommonPrefix(a[1..], b[1..]);
      assert a[..k + 1] == [a[0]] + a[1..][..k];
      k + 1
    else 0
  }

  /** `filepath.Rel`: None where Go reports that no relative path exists. */
  function Rel(base: string, target: string): Option<string> {
    if Rooted(base) != Rooted(target) then None
    else
      var b, t := Components(base), Components(target);
      var k := CommonPrefix(b, t);
      if k < |b| && b[k] == ".." then None
      else
        var parts := seq(|b| - k, _ => "..") + t[k..];
        Some(if parts == [] then "." else Join(parts, '/'))
  }

  /** A component Clean keeps: no slash, not empty, not "." or "..". */
  predicate Proper(c: string) {
    c != "" && c != "." && c != ".." && '/' !in c
  }

  predicate AllProper(cs: seq<string>) {
    forall c :: c in cs ==> Proper(c)
  }

  function Abs(cs: seq<string>): string {
    "/" + Join(cs, '/')
  }

  /** A clean absolute path. */
  predicate CleanAbs(p: string) {
    Rooted(p) && Clean(p) == p
  }

  lemma {:induction false} WalkConcat(rooted: bool, stack: seq<string>, a: seq<string>, b: seq<string>)
    ensures Walk(rooted, stack, a + b) == Walk(rooted, Walk(rooted, stack, a), b)
    decreases a
  {
    if a == [] {
      assert a + b == b;
    } else {
      assert (a + b)[1..] == a[1..] + b;
      WalkConcat(rooted, Push(rooted, stack, a[0]), a[1..], b);
    }
  }

  lemma {:induction false} WalkProper(rooted: bool, stack: seq<string>, cs: seq<string>)
    requires AllProper(cs)
    ensures Walk(rooted, stack, cs) == stack + cs
    decreases cs
  {
    if cs != [] {
      assert Proper(cs[0]);
      WalkProper(rooted, stack + [cs[0]], cs[1..]);
      assert stack + cs == stack + [cs[0]] + cs[1..];
    }
  }

  /** From the root, the stack only ever holds proper components. */
  lemma {:induction false} WalkKeepsProper(stack: seq<string>, parts: seq<string>)
    requires AllProper(stack)
    requires forall p :: p in parts ==> '/' !in p
    ensures AllProper(Walk(true, stack, parts))
    decreases parts
  {
    if parts != [] {
      WalkKeepsProper(Push(true, stack, parts[0]), parts[1..]);
    }
  }

  lemma SplitAbs(cs: seq<string>)
    requires AllProper(cs)
    ensures Split(Abs(cs), '/') == [""] + if cs == [] then [""] else cs
  {
    if cs != [] {
      SplitOfJoin(cs, '/');
    }
    assert Abs(cs)[1..] == Join(cs, '/');
  }

  lemma WalkSkipsEmpty(rooted: bool, stack: seq<string>, parts: seq<string>)
    ensures Walk(rooted, stack, [""] + parts) == Walk(rooted, stack, parts)
  {
    assert ([""] + parts)[1..] == parts;
  }

  lemma ComponentsOfAbs(cs: seq<string>)
    requires AllProper(cs)
    ensures Components(Abs(cs)) == cs
    ensures CleanAbs(Abs(cs))
  {
    SplitAbs(cs);
    WalkSkipsEmpty(true, [], if cs == [] then [""] else cs);
    WalkProper(true, [], cs);
    if cs == [] {
      WalkSkipsEmpty(true, [], []);
    }
  }

  /** Clean is a projection onto clean paths, for every rooted input. */
  lemma CleanRooted(p: string)
    requires Rooted(p)
    ensures AllProper(Components(p)) && Clean(p) == Abs(Components(p))
    ensures CleanAbs(Clean(p)) && Components(Clean(p)) == Components(p)
  {
    WalkKeepsProper([], Split(p, '/'));
    ComponentsOfAbs(Components(p));
  }

  lemma {:induction false} WalkNamesSomething(rooted: bool, stack: seq<string>, parts: seq<string>)
    requires "" !in stack
    ensures "" !in Walk(rooted, stack, parts)
    decreases parts
  {
    if parts != [] {
      WalkNamesSomething(rooted, Push(rooted, stack, parts[0]), parts[1..]);
    }
  }

  /** No cleaned path is the empty text. */
  lemma CleanNotEmpty(p: string)
    ensures Clean(p) != ""
  {
    hide Walk, Split;
    WalkNamesSomething(Rooted(p), [], Split(p, '/'));
    var cs := Components(p);
    if cs != [] {
      assert cs[0] in cs;
    }
  }

  /** Joining below a clean root appends the components. */
  lemma JoinAbs(a: seq<string>, b: seq<string>)
    requires AllProper(a) && AllProper(b)
    ensures JoinPath(Abs(a), Abs(b)) == Abs(a + b)
  {
    SplitAbs(a);
    SplitAbs(b);
    SplitConcat(Abs(a), Abs(b), '/');
    var p := Abs(a) + "/" + Abs(b);
    assert Split(p, '/') == Split(Abs(a), '/') + Split(Abs(b), '/');
    WalkConcat(true, [], Split(Abs(a), '/'), Split(Abs(b), '/'));
    ComponentsOfAbs(a);
    WalkSkipsEmpty(true, a, if b == [] then [""] else b);
    WalkProper(true, a, b);
    if b == [] {
      WalkSkipsEmpty(true, a, []);
    }
    assert Components(p) == a + b;
  }

  lemma AbsConcat(a: seq<string>, b: seq<string>)
    requires a != [] && b != []
    ensures Abs(a + b) == Abs(a) + Abs(b)
  {
    JoinConcat(a, b, '/');
  }

  /** For a clean root other than "/" and a clean path below it, joining is text
      concatenation; for root "/" it is the identity. */
  lemma JoinCleanAbs(root: string, rel: string)
    requires CleanAbs(root) && CleanAbs(rel)
    ensures CleanAbs(JoinPath(root, rel))
    ensures root == "/" ==> JoinPath(root, rel) == rel
    ensures root != "/" && rel != "/" ==> JoinPath(root, rel) == root + rel
    ensures Components(JoinPath(root, rel)) == Components(root) + Components(rel)
  {
    CleanRooted(root);
    CleanRooted(rel);
    var a, b := Components(root), Components(rel);
    JoinAbs(a, b);
    ComponentsOfAbs(a + b);
    if a == [] {
      assert a + b == b;
    } else if b != [] {
      AbsConcat(a, b);
    }
  }

  /** Joining below a fixed clean root is injective on clean paths. */
  lemma JoinInjective(root: string, x: string, y: string)
    requires CleanAbs(root) && CleanAbs(x) && CleanAbs(y)
    requires JoinPath(root, x) == JoinPath(root, y)
    ensures x == y
  {
    JoinCleanAbs(root, x);
    JoinCleanAbs(root, y);
    CleanRooted(x);
    CleanRooted(y);
    var r := Components(root);
    assert Components(x) == (r + Components(x))[|r|..];
    assert Components(y) == (r + Components(y))[|r|..];
  }

  lemma {:induction false} WalkUp(stack: seq<string>, n: nat)
    requires AllProper(stack) && n <= |stack|
    ensures Walk(true, stack, seq(n, _ => "..")) == stack[..|stack| - n]
    decreases n
  {
    if n > 0 {
      var ups := seq(n, _ => "..");
      assert ups[1..] == seq(n - 1, _ => "..");
      assert Proper(Last(stack));
      WalkUp(stack[..|stack| - 1], n - 1);
    }
  }

  /** Climbing from `b` to the common ancestor and descending again reaches `t`. */
  lemma WalkRelative(b: seq<string>, t: seq<string>, k: nat)
    requires AllProper(b) && AllProper(t)
    requires k <= |b| && k <= |t| && b[..k] == t[..k]
    ensures Walk(true, b, seq(|b| - k, _ => "..") + t[k..]) == t
  {
    var ups := seq(|b| - k, _ => "..");
    WalkConcat(true, b, ups, t[k..]);
    WalkUp(b, |b| - k);
    assert b[..|b| - (|b| - k)] == b[..k];
    WalkProper(true, b[..k], t[k..]);
    assert b[..k] + t[k..] == t;
  }

  lemma ComponentsBelow(root: string, tail: string)
    requires CleanAbs(root)
    ensures Components(root + "/" + "/" + tail) == Walk(true, Components(root), Split(tail, '/'))
  {
    CleanRooted(root);
    var b := Components(root);
    assert root + "/" + ("/" + tail) == root + "/" + "/" + tail;
    assert "" + "/" + tail == "/" + tail;
    SplitConcat(root, "/" + tail, '/');
    SplitConcat("", tail, '/');
    WalkConcat(true, [], Split(root, '/'), [""] + Split(tail, '/'));
    WalkSkipsEmpty(true, b, Split(tail, '/'));
  }

  /** Re-rooting a real path through Rel and Join gives the real path back, even
      when it lies outside the root. */
  lemma RelRoundTrip(root: string, target: string)
    requires CleanAbs(root) && CleanAbs(target)
    ensures Rel(root, target).Some?
    ensures JoinPath(root, "/" + Rel(root, target).value) == target
  {
    hide Walk, Split, Join, AllProper;
    CleanRooted(root);
    CleanRooted(target);
    var b, t := Components(root), Components(target);
    var k := CommonPrefix(b, t);
    ProperAt(b, k);
    var rel := Rel(root, target).value;
    assert root + "/" + ("/" + rel) == root + "/" + "/" + rel;
    ComponentsBelow(root, rel);
    WalkRelative(b, t, k);
    RelativeParts(b, t, k);
  }

  lemma ProperAt(cs: seq<string>, k: nat)
    requires AllProper(cs)
    ensures k < |cs| ==> Proper(cs[k])
  {
  }

  /** The text Rel writes splits back into the steps it stands for. */
  lemma RelativeParts(b: seq<string>, t: seq<string>, k: nat)
    requires AllProper(b) && AllProper(t) && k <= |b| && k <= |t|
    ensures var parts := seq(|b| - k, _ => "..") + t[k..];
      Walk(true, b, Split(if parts == [] then "." else Join(parts, '/'), '/')) == Walk(true, b, parts)
  {
    hide Walk, Split, Join;
    var ups := seq(|b| - k, _ => "..");
    var parts := ups + t[k..];
    if parts == [] {
      SplitAtom(".", '/');
      WalkDot(b);
    } else {
      forall c | c in parts
        ensures '/' !in c
      {
        assert c in ups || c in t;
      }
      SplitOfJoin(parts, '/');
    }
  }

  lemma WalkDot(stack: seq<string>)
    ensures Walk(true, stack, ["."]) == Walk(true, stack, [])
  {
    assert Walk(true, stack, ["."]) == Walk(true, Push(true, stack, "."), []);
  }

  /** The steps of a path that ends in a file name. */
  predicate EndsInName(parts: seq<string>) {
    parts != [] && (forall p :: p in parts ==> p != "" && '/' !in p) && Proper(Last(parts))
  }

  lemma {:induction false} JoinEndsInLast(parts: seq<string>)
    requires parts != []
    ensures HasSuffix(Join(parts, '/'), Last(parts))
  {
    if |parts| > 1 {
      JoinEndsInLast(parts[1..]);
    }
  }

  /** The base name of such a path is its last step. */
  lemma BaseOfAbs(parts: seq<string>)
    requires EndsInName(parts)
    ensures Base(Abs(parts)) == Last(parts)
  {
    hide Split, Join;
    SplitOfJoin(parts, '/');
    SplitConcat("", Join(parts, '/'), '/');
    SplitAtom("", '/');
    JoinEndsInLast(parts);
    var p, last := Abs(parts), Last(parts);
    assert "" + "/" + Join(parts, '/') == p;
    assert p[|p| - 1] == last[|last| - 1] && last[|last| - 1] in last;
  }

  /** Joining below a clean root keeps it, even where the path climbs. */
  lemma BaseBelow(root: string, parts: seq<string>)
    requires CleanAbs(root) && EndsInName(parts)
    ensures Base(JoinPath(root, Abs(parts))) == Last(parts)
  {
    hide Split, Join, Base, Walk;
    CleanRooted(root);
    var b, front, last := Components(root), parts[..|parts| - 1], Last(parts);
    var tail := Join(parts, '/');
    assert root + "/" + Abs(parts) == root + "/" + "/" + tail;
    ComponentsBelow(root, tail);
    SplitOfJoin(parts, '/');
    assert parts == front + [last];
    WalkConcat(true, b, front, [last]);
    WalkKeepsProper(b, front);
    WalkProper(true, Walk(true, b, front), [last]);
    var cs := Walk(true, b, front) + [last];
    CleanRooted(root + "/" + "/" + tail);
    assert JoinPath(root, Abs(parts)) == Abs(cs) && AllProper(cs);
    BaseOfAbs(cs);
  }

  /** There is no relative path from a directory whose name is not known. */
  lemma RelFromAbove(name: string)
    requires Proper(name)
    ensures Rel("..", name) == None && Rel(name, "..").Some?
  {
    SplitAtom("..", '/');
    SplitAtom(name, '/');
    assert Walk(false, [], [".."]) == Walk(false, [".."], []);
    assert Walk(false, [], [name]) == Walk(false, [name], []);
    assert name[0] in name;
  }

  /** Relative to the root it lies in, a path below it is itself. */
  lemma RelOfJoin(root: string, p: string)
    requires CleanAbs(root) && CleanAbs(p) && p != "/"
    ensures Rel(root, JoinPath(root, p)) == Some(p[1..])
  {
    hide Walk, Split, Join;
    CleanRooted(root);
    CleanRooted(p);
    JoinCleanAbs(root, p);
    var b, c := Components(root), Components(p);
    assert c != [] by {
      EmptyAbs();
    }
    var k := CommonPrefix(b, b + c);
    assert k == |b|;
    assert seq(|b| - k, _ => "..") + (b + c)[k..] == c;
  }

  lemma EmptyAbs()
    ensures Abs([]) == "/"
  {
  }

  /** The relative path to anything but the root and the directories it lies in
      ends in a file name. */
  lemma RelEndsInName(root: string, target: string) returns (parts: seq<string>)
    requires CleanAbs(root) && CleanAbs(target) && !(Components(target) <= Components(root))
    ensures EndsInName(parts) && Rel(root, target) == Some(Join(parts, '/'))
    ensures Last(parts) == Last(Components(target))
  {
    hide Walk, Split, Join;
    CleanRooted(root);
    CleanRooted(target);
    var b, t := Components(root), Components(target);
    var k := CommonPrefix(b, t);
    ProperAt(b, k);
    parts := seq(|b| - k, _ => "..") + t[k..];
    assert k < |t| && Last(t) in t && Last(parts) == Last(t);
    forall c | c in parts
      ensures c != "" && '/' !in c
    {
      assert c == ".." || c in t;
    }
  }

  /** Relative to a directory above it, a path is what follows the directory. */
  lemma RelInside(root: string, target: string)
    requires CleanAbs(root) && CleanAbs(target) && Components(root) <= Components(target)
    ensures Rel(root, target) == Some(".") || (Rel(root, target).Some? && CleanAbs("/" + Rel(root, target).value))
  {
    hide Walk, Split, Join;
    CleanRooted(root);
    CleanRooted(target);
    var b, t := Components(root), Components(target);
    var k := CommonPrefix(b, t);
    assert k == |b|;
    ProperAt(b, k);
    assert seq(|b| - k, _ => "..") + t[k..] == t[k..];
    ComponentsOfAbs(t[k..]);
  }

  /** Next to the root, the relative path climbs once. */
  lemma RelBeside(root: string, target: string, xs: seq<string>)
    requires CleanAbs(root) && CleanAbs(target) && Components(root) != []
    requires var b := Components(root);
      Components(target) == b[..|b| - 1] + xs && !(b <= Components(target))
    ensures Rel(root, target) == Some(Join([".."] + xs, '/'))
  {
    hide Walk, Split, Join;
    CleanRooted(root);
    CleanRooted(target);
    var b, t := Components(root), Components(target);
    var k := CommonPrefix(b, t);
    ProperAt(b, k);
    assert k == |b| - 1;
    assert seq(|b| - k, _ => "..") + t[k..] == [".."] + xs;
  }

  /** Joining a path that climbs once leads next to the root. */
  lemma JoinBeside(root: string, xs: seq<string>)
    requires CleanAbs(root) && Components(root) != [] && AllProper(xs)
    ensures var b := Components(root);
      Components(JoinPath(root, Abs([".."] + xs))) == b[..|b| - 1] + xs
  {
    hide Walk, Split, Join;
    CleanRooted(root);
    var b, parts := Components(root), [".."] + xs;
    assert Proper(Last(b));
    assert root + "/" + Abs(parts) == root + "/" + "/" + Join(parts, '/');
    ComponentsBelow(root, Join(parts, '/'));
    SplitOfJoin(parts, '/');
    CleanRooted(root + "/" + "/" + Join(parts, '/'));
    WalkTheRest(b, "..", xs);
  }

  /** Walking on from a directory stays below it, unless the first step is "..". */
  lemma WalkTheRest(r: seq<string>, first: string, xs: seq<string>)
    requires AllProper(r) && AllProper(xs) && r != []
    ensures first == ".." ==> Walk(true, r, [first] + xs) == r[..|r| - 1] + xs
    ensures first != ".." ==> r <= Walk(true, r, [first] + xs)
  {
    assert ([first] + xs)[1..] == xs;
    assert Proper(Last(r));
    var next := Push(true, r, first);
    assert Walk(true, r, [first] + xs) == Walk(true, next, xs);
    if first == "" || first == "." || first == ".." {
      WalkProper(true, next, xs);
    } else {
      WalkGrows(next, xs);
    }
  }

  lemma {:induction false} WalkGrows(stack: seq<string>, xs: seq<string>)
    requires AllProper(xs)
    ensures stack <= Walk(true, stack, xs)
    decreases xs
  {
    if xs != [] {
      assert Proper(xs[0]);
      WalkGrows(stack + [xs[0]], xs[1..]);
    }
  }

  /** The edges of the text functions, as Go documents them. */
  lemma EdgeCases()
    ensures Clean("") == "." && JoinPath("", "") == "" && Base("") == "." && Base("/") == "/"
    ensures forall p :: Rooted(Clean(p)) <==> Rooted(p)
  {
    assert Split("", '/') == [""] && Walk(false, [], [""]) == Walk(false, [], []);
    assert StripTrailingSlashes("/") == StripTrailingSlashes("");
    forall p
      ensures Rooted(Clean(p)) <==> Rooted(p)
    {
      CleanStaysRelative(p);
    }
  }

  lemma CleanStaysRelative(p: string)
    ensures Rooted(Clean(p)) <==> Rooted(p)
  {
    hide Walk, Split;
    var cs := Components(p);
    WalkNamesSomething(Rooted(p), [], Split(p, '/'));
    WalkKeepsAtoms(Rooted(p), [], Split(p, '/'));
    if cs != [] && !Rooted(p) {
      assert cs[0] in cs && cs[0][0] in cs[0];
    }
  }

  lemma {:induction false} WalkKeepsAtoms(rooted: bool, stack: seq<string>, parts: seq<string>)
    requires (forall c :: c in stack ==> '/' !in c) && forall p :: p in parts ==> '/' !in p
    ensures forall c :: c in Walk(rooted, stack, parts) ==> '/' !in c
    decreases parts
  {
    if parts != [] {
      WalkKeepsAtoms(rooted, Push(rooted, stack, parts[0]), parts[1..]);
    }
  }

  lemma {:induction false} WalkUps(n: nat, m: nat)
    ensures Walk(false, seq(n, _ => ".."), seq(m, _ => "..")) == seq(n + m, _ => "..")
    decreases m
  {
    if m > 0 {
      var ups := seq(m, _ => "..");
      assert ups[1..] == seq(m - 1, _ => "..");
      assert seq(n, _ => "..") + [".."] == seq(n + 1, _ => "..");
      assert n > 0 ==> seq(n, _ => "..")[n - 1] == "..";
      WalkUps(n + 1, m - 1);
    }
  }

  /** A relative path that climbs first and then names something is clean. */
  lemma CleanRelative(n: nat, names: seq<string>)
    requires AllProper(names) && n + |names| > 0
    ensures var p := Join(seq(n, _ => "..") + names, '/');
      Clean(p) == p
  {
    hide Walk, Split, Join;
    var ups := seq(n, _ => "..");
    var parts := ups + names;
    assert parts[0] == ".." || parts[0] in names;
    forall c | c in parts
      ensures c != "" && '/' !in c
    {
      assert c == ".." || c in names;
    }
    JoinStart(parts);
    SplitOfJoin(parts, '/');
    WalkConcat(false, [], ups, names);
    WalkUps(0, n);
    assert seq(0, _ => "..") == [];
    WalkProper(false, ups, names);
  }

  lemma JoinStart(parts: seq<string>)
    requires parts != [] && parts[0] != "" && '/' !in parts[0]
    ensures Join(parts, '/') != "" && !Rooted(Join(parts, '/'))
  {
    assert parts[0][0] in parts[0];
    assert Join(parts, '/')[0] == parts[0][0] != '/';
  }

  /** Trailing slashes do not change the base name. */
  lemma BaseIgnoresSlash(p: string)
    requires p != ""
    ensures Base(p + "/") == Base(p)
  {
    assert (p + "/")[..|p|] == p;
    assert StripTrailingSlashes(p + "/") == StripTrailingSlashes(p);
  }

  /** The parent of a clean path, and of a bare name. */
  lemma DirOfAbs(front: seq<string>, name: string)
    requires AllProper(front) && Proper(name)
    ensures Dir(Abs(front + [name])) == Abs(front)
    ensures Dir(name) == "."
  {
    hide Walk, Join, Split;
    var cs := front + [name];
    assert cs != [] && AllProper(cs);
    SplitAbs(cs);
    SplitAtom(name, '/');
    var parts := [""] + cs;
    assert parts[..|parts| - 1] == [""] + front;
    JoinRooted(front);
    CleanTrailing(front);
  }

  lemma JoinRooted(front: seq<string>)
    ensures Join([""] + front, '/') == if front == [] then "" else Abs(front)
  {
    assert ([""] + front)[1..] == front;
  }

  lemma CleanTrailing(front: seq<string>)
    requires AllProper(front)
    ensures Clean((if front == [] then "" else Abs(front)) + "/") == Abs(front)
  {
    hide Walk, Split;
    ComponentsOfAbs(front);
    if front == [] {
      EmptyAbs();
      assert "" + "/" == Abs(front);
    } else {
      var p := Abs(front);
      assert p + "/" == p + "/" + "";
      SplitConcat(p, "", '/');
      SplitAtom("", '/');
      WalkConcat(true, [], Split(p, '/'), [""]);
      WalkSkipsEmpty(true, front, []);
      WalkNone(front);
      CleanRooted(p + "/");
    }
  }

  lemma WalkNone(stack: seq<string>)
    ensures Walk(true, stack, [""]) == stack
  {
    assert Walk(true, stack, [""]) == Walk(true, Push(true, stack, ""), []);
  }

  lemma BaseOfJoin(root: string, rel: string)
    requires CleanAbs(root) && CleanAbs(rel) && rel != "/"
    ensures Base(JoinPath(root, rel)) == Base(rel)
  {
    CleanRooted(root);
    CleanRooted(rel);
    JoinAbs(Components(root), Components(rel));
    assert Components(rel) != [] by {
      EmptyAbs();
    }
    assert Last(Components(rel)) in Components(rel);
    BaseOfAbs(Components(rel));
    BaseOfAbs(Components(root) + Components(rel));
  }

  /** Joining three elements at once or in two steps names the same file. */
  lemma JoinLeaf(root: string, dir: string, name: string)
    requires CleanAbs(root) && CleanAbs(dir) && Proper(name)
    ensures JoinPath3(root, dir, name) == JoinPath(root, JoinPath(dir, name))
  {
    hide Walk, Split;
    CleanRooted(root);
    CleanRooted(dir);
    var r, d := Components(root), Components(dir);
    ComponentsOfLeaf(dir, name);
    JoinAbs(r, d + [name]);
    CleanAppendsLeaf(root, dir, name);
    assert r + (d + [name]) == (r + d) + [name];
  }

  lemma ComponentsOfLeaf(dir: string, name: string)
    requires CleanAbs(dir) && Proper(name)
    ensures AllProper(Components(dir) + [name])
    ensures JoinPath(dir, name) == Abs(Components(dir) + [name])
  {
    CleanRooted(dir);
    var d := Components(dir);
    SplitConcat(dir, name, '/');
    SplitAtom(name, '/');
    WalkConcat(true, [], Split(dir, '/'), [name]);
    WalkProper(true, d, [name]);
    assert Components(dir + "/" + name) == d + [name];
  }

  lemma CleanAppendsLeaf(root: string, dir: string, name: string)
    requires CleanAbs(root) && CleanAbs(dir) && Proper(name)
    ensures Clean(root + "/" + dir + "/" + name) == Abs(Components(root) + Components(dir) + [name])
  {
    CleanRooted(root);
    CleanRooted(dir);
    var r, d := Components(root), Components(dir);
    JoinAbs(r, d);
    ComponentsOfAbs(r + d);
    var both := root + "/" + dir;
    CleanRooted(both);
    SplitConcat(both, name, '/');
    SplitAtom(name, '/');
    WalkConcat(true, [], Split(both, '/'), [name]);
    WalkProper(true, r + d, [name]);
    assert Components(both + "/" + name) == r + d + [name];
  }

  /** Length of the components, each with its slash. */
  function Weight(cs: seq<string>): nat {
    if cs == [] then 0 else |cs[0]| + 1 + Weight(cs[1..])
  }

  lemma {:induction false} WeightConcat(a: seq<string>, b: seq<string>)
    ensures Weight(a + b) == Weight(a) + Weight(b)
  {
    if a == [] {
      assert a + b == b;
    } else {
      assert (a + b)[1..] == a[1..] + b;
      WeightConcat(a[1..], b);
    }
  }

  lemma {:induction false} JoinLength(cs: seq<string>)
    requires cs != []
    ensures |Join(cs, '/')| + 1 == Weight(cs)
  {
    if |cs| > 1 {
      JoinLength(cs[1..]);
    }
  }

  lemma {:induction false} WalkShrinks(rooted: bool, stack: seq<string>, parts: seq<string>)
    ensures Weight(Walk(rooted, stack, parts)) <= Weight(stack) + Weight(parts)
    decreases parts
  {
    if parts != [] {
      var next := Push(rooted, stack, parts[0]);
      if parts[0] == ".." && stack != [] && next == stack[..|stack| - 1] {
        assert stack == next + [Last(stack)];
        WeightConcat(next, [Last(stack)]);
      } else {
        WeightConcat(stack, [parts[0]]);
      }
      WalkShrinks(rooted, next, parts[1..]);
    }
  }

  /** Cleaning below a root never makes the path longer than plain concatenation. */
  lemma JoinNoLonger(root: string, tail: string)
    requires CleanAbs(root) && root != "/"
    ensures |JoinPath(root, "/" + tail)| <= |root| + 1 + |tail|
  {
    hide Walk, Split, Push;
    CleanRooted(root);
    var b := Components(root);
    assert root + "/" + ("/" + tail) == root + "/" + "/" + tail;
    ComponentsBelow(root, tail);
    WalkShrinks(true, b, Split(tail, '/'));
    JoinLength(Split(tail, '/'));
    JoinOfSplit(tail, '/');
    JoinLength(b);
    var joined := Components(root + "/" + "/" + tail);
    if joined != [] {
      JoinLength(joined);
    }
  }

  /** A clean path has no second slash at its front. */
  lemma SingleSlash(p: string)
    requires CleanAbs(p)
    ensures p != "" && p == "/" + p[1..] && !HasPrefix(p[1..], "/")
  {
    CleanRooted(p);
    var cs := Components(p);
    if cs != [] {
      assert Proper(cs[0]);
      assert p[1..] == Join(cs, '/');
      assert cs[0][0] in cs[0];
    }
  }
}
