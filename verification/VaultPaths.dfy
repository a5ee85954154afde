/** Vault-relative paths: normalising a request's path against its base, and projecting a canonical path back to that base. */
module VaultPaths {
  import opened Ordering

  const PATH_MAX_BYTES := 4096
  const PATH_MAX_SEGMENTS := 128

  datatype PathError = PathDenied | InputTooLarge

  datatype Normalized = Path(rel: string) | Denied(error: PathError)

  // ---- characters -------------------------------------------------------------------------------

  /** White space as Unicode defines it. */
  predicate Space(c: char) {
    var n := c as int;
    9 <= n <= 13 || n == 32 || n == 0x85 || n == 0xA0 || n == 0x1680 || 0x2000 <= n <= 0x200A || n == 0x2028 || n == 0x2029
    || n == 0x202F || n == 0x205F || n == 0x3000
  }

  function CharBytes(c: char): nat {
    var n := c as int;
    if n < 0x80 then 1 else if n < 0x800 then 2 else if n < 0x10000 then 3 else 4
  }

  function Bytes(s: string): nat {
    if s == "" then 0 else CharBytes(s[0]) + Bytes(s[1..])
  }

  function TrimLeft(s: string): string {
    if s != "" && Space(s[0]) then TrimLeft(s[1..]) else s
  }

  function TrimRight(s: string): string {
    if s != "" && Space(s[|s| - 1]) then TrimRight(s[..|s| - 1]) else s
  }

  function TrimSpace(s: string): string { TrimRight(TrimLeft(s)) }

  function Slashed(s: string): string {
    if s == "" then "" else [if s[0] == '\\' then '/' else s[0]] + Slashed(s[1..])
  }

  // ---- segments ---------------------------------------------------------------------------------

  function Split(s: string): (parts: seq<string>)
    ensures parts != []
  {
    if s == "" then [""]
    else
      var rest := Split(s[1..]);
      if s[0] == '/' then [""] + rest else [[s[0]] + rest[0]] + rest[1..]
  }

  function Join(parts: seq<string>): string
    requires parts != []
  {
    if |parts| == 1 then parts[0] else parts[0] + "/" + Join(parts[1..])
  }

  /** Lexical reduction: empty and `.` parts go, `..` takes the part before it, or stays in front of a relative path. */
  function Reduce(kept: seq<string>, parts: seq<string>, rooted: bool): seq<string>
    decreases |parts|
  {
    if parts == [] then kept
    else
      var part := parts[0];
      if part == "" || part == "." then Reduce(kept, parts[1..], rooted)
      else if part == ".." then
        if kept != [] && kept[|kept| - 1] != ".." then Reduce(kept[..|kept| - 1], parts[1..], rooted)
        else if rooted then Reduce(kept, parts[1..], rooted)
        else Reduce(kept + [part], parts[1..], rooted)
      else Reduce(kept + [part], parts[1..], rooted)
  }

  /** A path of these parts; none is `.`. */
  function Spelled(parts: seq<string>): string {
    if parts == [] then "." else Join(parts)
  }

  function Clean(s: string): string {
    if s == "" then "."
    else if s[0] == '/' then "/" + (var parts := Reduce([], Split(s), true); if parts == [] then "" else Join(parts))
    else Spelled(Reduce([], Split(s), false))
  }

  function SlashClean(s: string): string {
    var t := TrimSpace(Slashed(s));
    if t == "" then "" else Clean(t)
  }

  predicate AbsoluteInput(s: string) {
    s != "" && (s[0] == '/' || s[0] == '\\')
  }

  predicate Hidden(part: string) { part != "" && part[0] == '.' }

  /** A denied segment; empty ones and single dots are passed over. */
  predicate AnyHidden(parts: seq<string>) {
    exists k :: 0 <= k < |parts| && parts[k] != "" && parts[k] != "." && Hidden(parts[k])
  }

  /** An input below its base, where `.` stands for nothing. */
  function Combined(b: string, i: string): string {
    if b != "." && i != "." then Clean(b + "/" + i) else if i == "." then b else i
  }

  function NormalizeRel(base: string, input: string): Normalized {
    if TrimSpace(input) == "" then Denied(PathDenied)
    else if Bytes(base) > PATH_MAX_BYTES || Bytes(input) > PATH_MAX_BYTES then Denied(InputTooLarge)
    else if AbsoluteInput(base) || AbsoluteInput(input) then Denied(PathDenied)
    else
      var b := if SlashClean(base) == "" then "." else SlashClean(base);
      var i := SlashClean(input);
      var combined := Combined(b, i);
      var clean := Clean(combined);
      if clean == "/" || clean == "." then Path(".")
      else if Bytes(clean) > PATH_MAX_BYTES then Denied(InputTooLarge)
      else if clean == ".." || (|clean| >= 3 && clean[..3] == "../") then Denied(PathDenied)
      else
        var parts := Split(clean);
        if |parts| > PATH_MAX_SEGMENTS then Denied(InputTooLarge)
        else if AnyHidden(parts) then Denied(PathDenied)
        else Path(clean)
  }

  // ---- projecting -------------------------------------------------------------------------------

  function Ups(n: nat): seq<string> {
    if n == 0 then [] else [".."] + Ups(n - 1)
  }

  function Parts(path: string): seq<string> {
    if path == "." then [] else Split(path)
  }

  function CommonLength(a: seq<string>, b: seq<string>): (n: nat)
    ensures n <= |a| && n <= |b| && a[..n] == b[..n] && (n == |a| || n == |b| || a[n] != b[n])
  {
    if a == [] || b == [] || a[0] != b[0] then 0
    else
      var n := 1 + CommonLength(a[1..], b[1..]);
      assert a[..n] == [a[0]] + a[1..][..n - 1] && b[..n] == [b[0]] + b[1..][..n - 1];
      n
  }

  /** The path as seen from the base: up to where the two part, then down. */
  function Projected(base: string, canonical: string): string {
    var n := CommonLength(Parts(base), Parts(canonical));
    Spelled(Ups(|Parts(base)| - n) + Parts(canonical)[n..])
  }

  lemma SharedPart(a: seq<string>, b: seq<string>, n: nat, k: nat)
    requires n <= |a| && n <= |b| && a[..n] == b[..n] && k < n
    ensures a[k] == b[k]
  {
    assert a[k] == a[..n][k] && b[k] == b[..n][k];
  }

  lemma CommonIsUnique(a: seq<string>, b: seq<string>, m: nat, n: nat)
    requires m <= |a| && m <= |b| && a[..m] == b[..m] && (m == |a| || m == |b| || a[m] != b[m])
    requires n <= |a| && n <= |b| && a[..n] == b[..n] && (n == |a| || n == |b| || a[n] != b[n])
    ensures m == n
  {
    if m < n {
      SharedPart(a, b, n, m);
    } else if n < m {
      SharedPart(a, b, m, n);
    }
  }

  // ---- splitting and joining --------------------------------------------------------------------

  lemma {:induction false} SplitConcat(a: string, b: string)
    ensures Split(a + "/" + b) == Split(a) + Split(b)
    decreases |a|
  {
    var s := a + "/" + b;
    if a == "" {
      assert s == "/" + b && s[1..] == b;
    } else {
      assert s[0] == a[0] && s[1..] == a[1..] + "/" + b;
      SplitConcat(a[1..], b);
    }
  }

  lemma {:induction false} JoinSplit(s: string)
    ensures Join(Split(s)) == s
  {
    if s != "" {
      var rest := Split(s[1..]);
      JoinSplit(s[1..]);
      if s[0] == '/' {
        assert ([""] + rest)[1..] == rest;
      } else {
        var parts := [[s[0]] + rest[0]] + rest[1..];
        if |rest| > 1 {
          assert parts[1..] == rest[1..];
          assert [s[0]] + rest[0] + "/" + Join(rest[1..]) == [s[0]] + (rest[0] + "/" + Join(rest[1..]));
        }
      }
      assert s == [s[0]] + s[1..];
    }
  }

  lemma {:induction false} SplitWord(s: string)
    requires '/' !in s
    ensures Split(s) == [s]
  {
    if s != "" {
      assert '/' !in s[1..] && s[0] != '/';
      SplitWord(s[1..]);
      assert [s[0]] + s[1..] == s;
    }
  }

  /** Splitting undoes joining when no part holds a slash. */
  lemma {:induction false} SplitJoin(parts: seq<string>)
    requires parts != [] && forall k :: 0 <= k < |parts| ==> '/' !in parts[k]
    ensures Split(Join(parts)) == parts
    decreases |parts|
  {
    SplitWord(parts[0]);
    if |parts| > 1 {
      SplitJoin(parts[1..]);
      SplitConcat(parts[0], Join(parts[1..]));
      assert [parts[0]] + parts[1..] == parts;
    }
  }

  // ---- canonical paths --------------------------------------------------------------------------

  predicate Segment(x: string) {
    x != "" && x[0] != '.' && '/' !in x && '\\' !in x
  }

  ghost predicate Segments(parts: seq<string>) {
    forall k :: 0 <= k < |parts| ==> Segment(parts[k])
  }

  ghost predicate Canonical(path: string) {
    Segments(Parts(path)) && Bytes(path) <= PATH_MAX_BYTES && |Parts(path)| <= PATH_MAX_SEGMENTS
  }

  lemma {:induction false} UpsAre(n: nat)
    ensures |Ups(n)| == n && forall k :: 0 <= k < n ==> Ups(n)[k] == ".."
  {
    if n > 0 {
      UpsAre(n - 1);
    }
  }

  /** The parts a projected path is spelled with. */
  ghost predicate Route(parts: seq<string>, ups: nat) {
    ups <= |parts| && parts[..ups] == Ups(ups) && Segments(parts[ups..])
  }

  lemma RoutePart(parts: seq<string>, ups: nat, k: nat)
    requires Route(parts, ups) && k < |parts|
    ensures parts[k] != "" && '/' !in parts[k] && '\\' !in parts[k] && (k < ups ==> parts[k] == "..") && (k >= ups ==> Segment(parts[k]))
  {
    UpsAre(ups);
    if k < ups {
      assert parts[k] == parts[..ups][k];
    } else {
      assert parts[k] == parts[ups..][k - ups];
    }
  }

  lemma {:induction false} ReduceSegments(kept: seq<string>, segs: seq<string>, rest: seq<string>)
    requires Segments(segs)
    ensures Reduce(kept, segs + rest, false) == Reduce(kept + segs, rest, false)
    decreases |segs|
  {
    if segs == [] {
      assert segs + rest == rest && kept + segs == kept;
    } else {
      assert Segment(segs[0]);
      assert (segs + rest)[1..] == segs[1..] + rest && kept + segs == kept + [segs[0]] + segs[1..];
      ReduceSegments(kept + [segs[0]], segs[1..], rest);
    }
  }

  lemma {:induction false} ReduceUps(n: nat, k: nat, rest: seq<string>)
    ensures Reduce(Ups(n), Ups(k) + rest, false) == Reduce(Ups(n + k), rest, false)
    decreases k
  {
    if k == 0 {
      assert Ups(0) + rest == rest;
    } else {
      UpsAre(n);
      UpsAre(n + 1);
      assert (Ups(k) + rest)[1..] == Ups(k - 1) + rest && (Ups(k) + rest)[0] == "..";
      assert Ups(n) + [".."] == Ups(n + 1);
      ReduceUps(n + 1, k - 1, rest);
    }
  }

  lemma {:induction false} ReducePops(kept: seq<string>, k: nat, rest: seq<string>)
    requires Segments(kept) && k <= |kept|
    ensures Reduce(kept, Ups(k) + rest, false) == Reduce(kept[..|kept| - k], rest, false)
    decreases k
  {
    if k == 0 {
      assert Ups(0) + rest == rest && kept[..|kept|] == kept;
    } else {
      var n := |kept| - 1;
      assert Segment(kept[n]) && kept[n] != "..";
      assert (Ups(k) + rest)[1..] == Ups(k - 1) + rest && (Ups(k) + rest)[0] == "..";
      ReducePops(kept[..n], k - 1, rest);
      assert kept[..n][..n - (k - 1)] == kept[..|kept| - k];
    }
  }

  /** A route is already reduced. */
  lemma ReduceRoute(parts: seq<string>, ups: nat)
    requires Route(parts, ups)
    ensures Reduce([], parts, false) == parts
  {
    var segs := parts[ups..];
    assert parts == Ups(ups) + segs && segs == segs + [] && Ups(0) == [];
    ReduceUps(0, ups, segs);
    ReduceSegments(Ups(ups), segs, []);
  }

  lemma {:induction false} JoinChars(parts: seq<string>, c: char)
    requires parts != [] && c != '/' && forall k :: 0 <= k < |parts| ==> c !in parts[k]
    ensures c !in Join(parts)
    decreases |parts|
  {
    if |parts| > 1 {
      JoinChars(parts[1..], c);
    }
  }

  lemma JoinStarts(parts: seq<string>)
    requires parts != [] && parts[0] != ""
    ensures Join(parts) != "" && Join(parts)[0] == parts[0][0]
  {
  }

  /** What spelling a route gives: a relative path that cleaning leaves alone and splitting takes apart again. */
  lemma SpelledRoute(parts: seq<string>, ups: nat)
    requires Route(parts, ups)
    ensures var s := Spelled(parts); s != "" && s[0] != '/' && s[0] != '\\' && '\\' !in s && Clean(s) == s
    ensures parts != [] ==> Split(Spelled(parts)) == parts
    ensures Spelled(parts) == "." <==> parts == []
  {
    if parts == [] {
      SplitWord(".");
      assert Reduce([], ["."], false) == Reduce([], [], false);
    } else {
      forall k | 0 <= k < |parts| ensures parts[k] != "" && '/' !in parts[k] && '\\' !in parts[k] {
        RoutePart(parts, ups, k);
      }
      RoutePart(parts, ups, 0);
      JoinStarts(parts);
      JoinChars(parts, '\\');
      SplitJoin(parts);
      ReduceRoute(parts, ups);
      NotDot(parts, ups);
    }
  }

  lemma NotDot(parts: seq<string>, ups: nat)
    requires Route(parts, ups) && parts != []
    ensures Join(parts) != "."
  {
    RoutePart(parts, ups, 0);
    if |parts| > 1 {
      assert |Join(parts)| >= 2;
    }
  }

  lemma {:induction false} SlashedKeeps(s: string)
    requires '\\' !in s
    ensures Slashed(s) == s
  {
    if s != "" {
      assert s[0] != '\\' && '\\' !in s[1..];
      SlashedKeeps(s[1..]);
    }
  }

  /** Joining a base with a route from it goes up as far as the route says, and down again. */
  lemma CombinedReduces(base: seq<string>, route: seq<string>, ups: nat)
    requires Segments(base) && Route(route, ups) && ups <= |base|
    ensures Reduce([], base + route, false) == base[..|base| - ups] + route[ups..]
  {
    var segs := route[ups..];
    assert route == Ups(ups) + segs && segs == segs + [];
    ReduceSegments([], base, route);
    assert [] + base == base;
    ReducePops(base, ups, segs);
    ReduceSegments(base[..|base| - ups], segs, []);
  }

  ghost predicate Untrimmed(s: string) { TrimSpace(s) == s }

  lemma CanonicalRoute(path: string)
    requires Canonical(path)
    ensures Route(Parts(path), 0) && Spelled(Parts(path)) == path
  {
    if path != "." {
      JoinSplit(path);
    }
    assert Parts(path)[0..] == Parts(path) && Parts(path)[..0] == [] == Ups(0);
  }

  lemma ProjectedRoute(base: string, canonical: string)
    requires Canonical(base) && Canonical(canonical)
    ensures var b, p := Parts(base), Parts(canonical); var n := CommonLength(b, p);
            Route(Ups(|b| - n) + p[n..], |b| - n) && b[..n] + p[n..] == p
  {
    var b, p := Parts(base), Parts(canonical);
    var n := CommonLength(b, p);
    UpsAre(|b| - n);
    assert (Ups(|b| - n) + p[n..])[|b| - n..] == p[n..];
    assert b[..n] == p[..n];
  }

  lemma CleanOfJoined(base: string, input: string, p: seq<string>)
    requires base != "" && base[0] != '/' && Reduce([], Split(base) + Split(input), false) == p
    ensures Clean(base + "/" + input) == Spelled(p)
  {
    SplitConcat(base, input);
    assert (base + "/" + input)[0] == base[0];
  }

  /** The two cleaned operands, joined and cleaned again, are the path the projection came from. */
  lemma CombinedIsPath(base: string, canonical: string)
    requires Canonical(base) && Canonical(canonical)
    ensures var q := Projected(base, canonical);
            Clean(Combined(base, q)) == canonical
  {
    var b, p, q := Parts(base), Parts(canonical), Projected(base, canonical);
    var n := CommonLength(b, p);
    var route := Ups(|b| - n) + p[n..];
    CanonicalRoute(base);
    CanonicalRoute(canonical);
    ProjectedRoute(base, canonical);
    SpelledRoute(b, 0);
    SpelledRoute(p, 0);
    SpelledRoute(route, |b| - n);
    hide Reduce, Canonical, Segments, Split, Clean, Join, Route;
    if base != "." && q != "." {
      assert Split(base) == b && Split(q) == route;
      RouteReduces(b, p, n);
      CleanOfJoined(base, q, p);
    } else if q == "." {
      UpsAre(|b| - n);
      assert |b| == n && p[n..] == [];
      assert b == b[..n] + p[n..];
    } else {
      assert b == [] && n == 0;
      assert route == p by {
        UpsAre(0);
        assert p[0..] == p && Ups(0) + p == p;
      }
    }
  }

  lemma RouteReduces(b: seq<string>, p: seq<string>, n: nat)
    requires n <= |b| && n <= |p| && Segments(b) && Route(Ups(|b| - n) + p[n..], |b| - n) && b[..n] + p[n..] == p
    ensures Reduce([], b + (Ups(|b| - n) + p[n..]), false) == p
  {
    var route := Ups(|b| - n) + p[n..];
    UpsAre(|b| - n);
    CombinedReduces(b, route, |b| - n);
    assert route[|b| - n..] == p[n..] && b[..|b| - (|b| - n)] == b[..n];
  }

  /** A path without edge white space or backslashes that is clean already is taken as it is. */
  lemma TakenAsItIs(s: string)
    requires s != "" && '\\' !in s && Untrimmed(s) && Clean(s) == s
    ensures SlashClean(s) == s && TrimSpace(s) != ""
  {
    SlashedKeeps(s);
  }

  lemma NormalizesTo(base: string, q: string, path: string)
    requires base != "" && q != "" && !AbsoluteInput(base) && !AbsoluteInput(q) && Bytes(base) <= PATH_MAX_BYTES && Bytes(q) <= PATH_MAX_BYTES
    requires SlashClean(base) == base && SlashClean(q) == q && TrimSpace(q) != "" && Canonical(path)
    requires Clean(Combined(base, q)) == path
    ensures NormalizeRel(base, q) == Path(path)
  {
    CanonicalPasses(path);
    assert Bytes(path) <= PATH_MAX_BYTES;
    hide Clean, Split, SlashClean, TrimSpace, Bytes, Canonical, Hidden, AbsoluteInput;
  }

  /** Normalising a projected path against its base gives back the canonical path. */
  lemma RoundTrip(base: string, canonical: string)
    requires Canonical(base) && Canonical(canonical) && Untrimmed(base)
    requires Untrimmed(Projected(base, canonical)) && Bytes(Projected(base, canonical)) <= PATH_MAX_BYTES
    ensures NormalizeRel(base, Projected(base, canonical)) == Path(canonical)
  {
    hide Clean, SlashClean, TrimSpace, Bytes, Canonical, Projected, Untrimmed;
    PlainOperand(base, base);
    PlainOperand(base, canonical);
    CombinedIsPath(base, canonical);
    TakenAsItIs(base);
    TakenAsItIs(Projected(base, canonical));
    assert Bytes(base) <= PATH_MAX_BYTES by {
      CanonicalIsShort(base);
    }
    NormalizesTo(base, Projected(base, canonical), canonical);
  }

  lemma CanonicalIsShort(path: string)
    requires Canonical(path)
    ensures Bytes(path) <= PATH_MAX_BYTES
  {
  }

  ghost predicate Plain(s: string) {
    s != "" && s[0] != '/' && s[0] != '\\' && '\\' !in s && Clean(s) == s
  }

  /** A base and any projection from it are relative, clean and free of backslashes. */
  lemma PlainOperand(base: string, canonical: string)
    requires Canonical(base) && Canonical(canonical)
    ensures Plain(base) && Plain(Projected(base, canonical))
  {
    hide Canonical, Clean, CommonLength, Ups, Route, Split;
    var b, p := Parts(base), Parts(canonical);
    var n := CommonLength(b, p);
    CanonicalRoute(base);
    ProjectedRoute(base, canonical);
    SpelledRoute(b, 0);
    SpelledRoute(Ups(|b| - n) + p[n..], |b| - n);
  }

  predicate CleanEdges(x: string) {
    x != "" && !Space(x[0]) && !Space(x[|x| - 1])
  }

  lemma {:induction false} JoinEdges(parts: seq<string>)
    requires parts != [] && forall k :: 0 <= k < |parts| ==> CleanEdges(parts[k])
    ensures CleanEdges(Join(parts))
    decreases |parts|
  {
    if |parts| > 1 {
      JoinEdges(parts[1..]);
      var rest := Join(parts[1..]);
      assert rest != "" && Join(parts) == parts[0] + "/" + rest;
    }
  }

  /** For segments without white space at their edges the size of the projection is the only condition. */
  lemma RoundTripOfPlainSegments(base: string, canonical: string)
    requires Canonical(base) && Canonical(canonical) && Bytes(Projected(base, canonical)) <= PATH_MAX_BYTES
    requires forall k :: 0 <= k < |Parts(base)| ==> CleanEdges(Parts(base)[k])
    requires forall k :: 0 <= k < |Parts(canonical)| ==> CleanEdges(Parts(canonical)[k])
    ensures NormalizeRel(base, Projected(base, canonical)) == Path(canonical)
  {
    hide Canonical, CleanEdges, Untrimmed, Bytes;
    var b, p := Parts(base), Parts(canonical);
    var n := CommonLength(b, p);
    CanonicalRoute(base);
    SpelledEdges(b);
    RouteEdges(|b| - n, p[n..]);
    RoundTrip(base, canonical);
  }

  lemma RouteEdges(ups: nat, segs: seq<string>)
    requires forall k :: 0 <= k < |segs| ==> CleanEdges(segs[k])
    ensures Untrimmed(Spelled(Ups(ups) + segs))
  {
    UpsAre(ups);
    SpelledEdges(Ups(ups) + segs);
  }

  lemma SpelledEdges(parts: seq<string>)
    requires forall k :: 0 <= k < |parts| ==> CleanEdges(parts[k])
    ensures Untrimmed(Spelled(parts))
  {
    if parts != [] {
      JoinEdges(parts);
    }
  }

  /** A canonical path meets the checks made after cleaning. */
  lemma CanonicalPasses(path: string)
    requires Canonical(path)
    ensures path != "/" && (path != "." ==> path != ".." && !(|path| >= 3 && path[..3] == "../") && |Split(path)| <= PATH_MAX_SEGMENTS)
    ensures path != "." ==> forall k :: 0 <= k < |Split(path)| ==> !Hidden(Split(path)[k])
  {
    CanonicalRoute(path);
    SpelledRoute(Parts(path), 0);
    if path != "." {
      assert Segment(Parts(path)[0]);
      JoinStarts(Parts(path));
    }
  }

  lemma SmallPaths()
    ensures Clean("a") == "a" && Clean(".") == "." && SlashClean(".") == "." && SlashClean("a ") == "a" && TrimSpace("a ") == "a"
    ensures Bytes(".") == 1 && Bytes("a") == 1 && Bytes("a ") == 2
  {
    SplitWord("a");
    SplitWord(".");
    assert Reduce([], ["a"], false) == Reduce(["a"], [], false) == ["a"];
    assert Reduce([], ["."], false) == Reduce([], [], false) == [];
    assert Slashed("a ")[1..] == Slashed(" ") == " ";
    assert Slashed("a ") == "a " && TrimLeft("a ") == "a " && "a "[..1] == "a" && TrimRight("a ") == TrimRight("a") == "a";
    assert Slashed(".") == "." && TrimSpace(".") == ".";
    assert Bytes(" ") == 1;
  }

  /** Without a condition on white space it would be false: the end of this path is taken for padding. */
  lemma EdgeSpaceIsLost()
    ensures Canonical("a ") && Projected(".", "a ") == "a " && NormalizeRel(".", "a ") == Path("a")
  {
    SmallPaths();
    SplitWord("a ");
    SplitWord("a");
    assert Parts(".") == [] && Parts("a ") == ["a "] && CommonLength([], ["a "]) == 0;
    assert Ups(0) + ["a "][0..] == ["a "];
    assert Split("a") == ["a"] && !AnyHidden(["a"]) && Combined(".", "a") == "a";
    hide Clean, SlashClean, TrimSpace, Bytes, Split, AnyHidden, Combined, Reduce, CommonLength, Ups;
  }

  // ---- when the round trip fails ----------------------------------------------------------------

  /** How many characters of a text stand in parts. */
  function Solid(s: string): nat {
    if s == "" then 0 else (if s[0] == '/' then 0 else 1) + Solid(s[1..])
  }

  function PartWeight(x: string): nat {
    if x == "." || x == ".." then 0 else |x|
  }

  function Weight(parts: seq<string>): nat {
    if parts == [] then 0 else PartWeight(parts[0]) + Weight(parts[1..])
  }

  function Length(parts: seq<string>): nat {
    if parts == [] then 0 else |parts[0]| + Length(parts[1..])
  }

  lemma {:induction false} WeightConcat(a: seq<string>, b: seq<string>)
    ensures Weight(a + b) == Weight(a) + Weight(b)
  {
    if a == [] {
      assert a + b == b;
    } else {
      assert (a + b)[1..] == a[1..] + b;
      WeightConcat(a[1..], b);
    }
  }

  lemma {:induction false} WeightAtMostLength(parts: seq<string>)
    ensures Weight(parts) <= Length(parts)
    ensures Segments(parts) ==> Weight(parts) == Length(parts)
  {
    if parts != [] {
      WeightAtMostLength(parts[1..]);
      assert Segments(parts) ==> Segment(parts[0]);
    }
  }

  lemma {:induction false} LengthOfSplit(s: string)
    ensures Length(Split(s)) == Solid(s)
  {
    if s != "" {
      LengthOfSplit(s[1..]);
      var rest := Split(s[1..]);
      assert ([""] + rest)[1..] == rest && ([[s[0]] + rest[0]] + rest[1..])[1..] == rest[1..];
    }
  }

  /** Reducing only drops parts. */
  lemma {:induction false} ReduceLightens(kept: seq<string>, parts: seq<string>, rooted: bool)
    ensures Weight(Reduce(kept, parts, rooted)) <= Weight(kept) + Weight(parts)
    decreases |parts|
  {
    if parts != [] {
      var part, rest := parts[0], parts[1..];
      if part == "" || part == "." {
        ReduceLightens(kept, rest, rooted);
      } else if part == ".." && kept != [] && kept[|kept| - 1] != ".." {
        assert kept == kept[..|kept| - 1] + [kept[|kept| - 1]];
        WeightConcat(kept[..|kept| - 1], [kept[|kept| - 1]]);
        ReduceLightens(kept[..|kept| - 1], rest, rooted);
      } else if part == ".." && rooted {
        ReduceLightens(kept, rest, rooted);
      } else {
        WeightConcat(kept, [part]);
        ReduceLightens(kept + [part], rest, rooted);
      }
    }
  }

  lemma {:induction false} ReduceKeepsWords(kept: seq<string>, parts: seq<string>, rooted: bool)
    requires (forall k :: 0 <= k < |kept| ==> '/' !in kept[k]) && (forall k :: 0 <= k < |parts| ==> '/' !in parts[k])
    ensures forall k :: 0 <= k < |Reduce(kept, parts, rooted)| ==> '/' !in Reduce(kept, parts, rooted)[k]
    decreases |parts|
  {
    if parts != [] {
      var part, rest := parts[0], parts[1..];
      if part == "" || part == "." {
        ReduceKeepsWords(kept, rest, rooted);
      } else if part == ".." && kept != [] && kept[|kept| - 1] != ".." {
        ReduceKeepsWords(kept[..|kept| - 1], rest, rooted);
      } else if part == ".." && rooted {
        ReduceKeepsWords(kept, rest, rooted);
      } else {
        ReduceKeepsWords(kept + [part], rest, rooted);
      }
    }
  }

  lemma {:induction false} SplitIntoWords(s: string)
    ensures forall k :: 0 <= k < |Split(s)| ==> '/' !in Split(s)[k]
  {
    if s != "" {
      SplitIntoWords(s[1..]);
    }
  }

  lemma CleanLightens(s: string)
    ensures Weight(Split(Clean(s))) <= Weight(Split(s))
  {
    SplitWord(".");
    SplitWord("");
    if s != "" {
      var rooted := s[0] == '/';
      var parts := Reduce([], Split(s), rooted);
      ReduceLightens([], Split(s), rooted);
      SplitIntoWords(s);
      ReduceKeepsWords([], Split(s), rooted);
      if parts != [] {
        SplitJoin(parts);
      }
      var rest := if parts == [] then "" else Join(parts);
      SplitConcat("", rest);
      assert "" + "/" + rest == "/" + rest;
      WeightConcat([""], Split(rest));
    }
  }

  lemma {:induction false} TrimLeftSolid(s: string)
    ensures Solid(TrimLeft(s)) <= Solid(s) && (TrimLeft(s) != s ==> Solid(TrimLeft(s)) < Solid(s))
  {
    if s != "" && Space(s[0]) {
      TrimLeftSolid(s[1..]);
    }
  }

  lemma {:induction false} SolidConcat(a: string, b: string)
    ensures Solid(a + b) == Solid(a) + Solid(b)
  {
    if a == "" {
      assert a + b == b;
    } else {
      assert (a + b)[1..] == a[1..] + b;
      SolidConcat(a[1..], b);
    }
  }

  lemma {:induction false} TrimRightSolid(s: string)
    ensures Solid(TrimRight(s)) <= Solid(s) && (TrimRight(s) != s ==> Solid(TrimRight(s)) < Solid(s))
  {
    if s != "" && Space(s[|s| - 1]) {
      var n := |s| - 1;
      TrimRightSolid(s[..n]);
      assert s == s[..n] + [s[n]];
      SolidConcat(s[..n], [s[n]]);
      assert Solid([s[n]]) == 1;
    }
  }

  /** What trimming takes off a path is taken off its parts. */
  lemma TrimmedIsLighter(s: string)
    requires Segments(Split(s)) && !Untrimmed(s)
    ensures Weight(Split(TrimSpace(s))) < Weight(Split(s))
  {
    TrimLeftSolid(s);
    TrimRightSolid(TrimLeft(s));
    LengthOfSplit(s);
    LengthOfSplit(TrimSpace(s));
    WeightAtMostLength(Split(s));
    WeightAtMostLength(Split(TrimSpace(s)));
  }

  lemma {:induction false} TrimRightBehind(head: string, last: string)
    ensures TrimRight(head + "/" + last) == head + "/" + TrimRight(last)
    decreases |last|
  {
    var s := head + "/" + last;
    if last != "" {
      assert s[|s| - 1] == last[|last| - 1] && s[..|s| - 1] == head + "/" + last[..|last| - 1];
      if Space(last[|last| - 1]) {
        TrimRightBehind(head, last[..|last| - 1]);
      }
    }
  }

  lemma {:induction false} JoinLast(parts: seq<string>)
    requires |parts| >= 2
    ensures Join(parts) == Join(parts[..|parts| - 1]) + "/" + parts[|parts| - 1]
  {
    if |parts| > 2 {
      JoinLast(parts[1..]);
      assert parts[1..][..|parts| - 2] == parts[..|parts| - 1][1..];
    }
  }

  lemma TrimRightPart(x: string)
    requires Segment(x)
    ensures TrimRight(x) == "" || Segment(TrimRight(x))
    ensures |TrimRight(x)| <= |x| && (TrimRight(x) != x ==> |TrimRight(x)| < |x|)
  {
    if TrimRight(x) != x && x[..|x| - 1] != "" {
      TrimRightPart(x[..|x| - 1]);
    }
  }

  lemma FrontRoute(route: seq<string>, ups: nat)
    requires Route(route, ups) && ups < |route|
    ensures var n := |route| - 1; Route(route[..n], ups) && route[ups..] == route[..n][ups..] + [route[n]] && Segment(route[n])
  {
    var front := route[..|route| - 1];
    RoutePart(route, ups, |route| - 1);
    assert front[..ups] == route[..ups];
    forall k | 0 <= k < |front[ups..]| ensures Segment(front[ups..][k]) {
      assert front[ups..][k] == route[ups..][k];
    }
  }

  lemma LongerRoute(front: seq<string>, ups: nat, x: string)
    requires Route(front, ups) && Segment(x)
    ensures Route(front + [x], ups) && (front + [x])[ups..] == front[ups..] + [x]
  {
    assert (front + [x])[..ups] == front[..ups] && (front + [x])[ups..] == front[ups..] + [x];
  }

  /** Only the end of a route that goes up can be trimmed. */
  lemma UpwardEnd(route: seq<string>, ups: nat)
    requires Route(route, ups) && ups > 0
    ensures var n := |route| - 1;
            TrimSpace(Spelled(route)) == (if n == 0 then Spelled(route) else Join(route[..n]) + "/" + TrimRight(route[n]))
  {
    var q, n := Spelled(route), |route| - 1;
    RoutePart(route, ups, 0);
    JoinStarts(route);
    assert TrimLeft(q) == q;
    if n > 0 {
      JoinLast(route);
      TrimRightBehind(Join(route[..n]), route[n]);
    }
  }

  lemma LastDown(route: seq<string>, ups: nat)
    requires Route(route, ups) && ups > 0 && !Untrimmed(Spelled(route))
    ensures |route| > ups && TrimRight(route[|route| - 1]) != route[|route| - 1]
  {
    UpwardEnd(route, ups);
    var n := |route| - 1;
    RoutePart(route, ups, n);
    assert TrimRight("..") == "..";
    hide TrimRight;
    if n > 0 {
      JoinLast(route);
    }
  }

  lemma TrimmedEnd(route: seq<string>, ups: nat)
    requires Route(route, ups) && ups > 0 && !Untrimmed(Spelled(route))
    ensures var n := |route| - 1;
            ups <= n && TrimSpace(Spelled(route)) == Join(route[..n]) + "/" + TrimRight(route[n]) && '\\' !in Spelled(route)
  {
    LastDown(route, ups);
    UpwardEnd(route, ups);
    SpelledRoute(route, ups);
  }

  lemma LighterEnd(front: seq<string>, last: string, x: string)
    requires Segment(last) && (x == "" || Segment(x)) && |x| < |last|
    ensures Weight(front + [x]) < Weight(front + [last]) && Weight(front) < Weight(front + [last])
  {
    WeightConcat(front, [last]);
    WeightConcat(front, [x]);
    assert [last][1..] == [] && [x][1..] == [];
    assert Weight([x]) == PartWeight(x) && Weight([last]) == |last|;
  }

  /** A route that goes up loses white space only at its end, and stays a route of less weight. */
  lemma UpwardTrimmed(route: seq<string>, ups: nat) returns (shorter: seq<string>)
    requires Route(route, ups) && ups > 0 && !Untrimmed(Spelled(route))
    ensures ups <= |shorter| && Route(shorter, ups) && Weight(shorter[ups..]) < Weight(route[ups..]) && SlashClean(Spelled(route)) == Spelled(shorter)
    ensures TrimSpace(Spelled(route)) != ""
  {
    hide Route, Clean, Weight, TrimRight, TrimLeft, Slashed, Split, Join, Spelled, Untrimmed, Segment, TrimSpace;
    LastDown(route, ups);
    TrimmedEnd(route, ups);
    FrontRoute(route, ups);
    var q, n := Spelled(route), |route| - 1;
    var front, x := route[..n], TrimRight(route[n]);
    TrimRightPart(route[n]);
    SlashedKeeps(q);
    TrimmedReduces(front, ups, x);
    LighterEnd(front[ups..], route[n], x);
    shorter := if x == "" then front else front + [x];
    if x != "" {
      LongerRoute(front, ups, x);
    }
    RouteIsLong(shorter, ups);
  }

  lemma RouteIsLong(route: seq<string>, ups: nat)
    requires Route(route, ups)
    ensures ups <= |route|
  {
  }

  lemma TrimmedReduces(front: seq<string>, ups: nat, x: string)
    requires Route(front, ups) && front != [] && (x == "" || Segment(x))
    ensures Join(front) + "/" + x != ""
    ensures Clean(Join(front) + "/" + x) == Spelled(if x == "" then front else front + [x])
  {
    var segs := front[ups..];
    RouteThen(front, ups, [x]);
    SpelledRoute(front, ups);
    SplitWord(x);
    assert Reduce(front, [x], false) == Reduce(if x == "" then front else front + [x], [], false);
    hide Reduce, Route, Split, Join, Segment;
    CleanOfJoined(Join(front), x, if x == "" then front else front + [x]);
  }

  lemma RouteThen(front: seq<string>, ups: nat, rest: seq<string>)
    requires Route(front, ups)
    ensures Reduce([], front + rest, false) == Reduce(front, rest, false)
  {
    var segs := front[ups..];
    assert front + rest == Ups(ups) + (segs + rest) && Ups(0) == [] && front == Ups(ups) + segs;
    ReduceUps(0, ups, segs + rest);
    ReduceSegments(Ups(ups), segs, rest);
  }

  lemma NormalizedCombined(base: string, q: string, path: string)
    requires base != "" && SlashClean(base) == base && NormalizeRel(base, q) == Path(path) && path != "."
    ensures TrimSpace(q) != "" && path == Clean(Combined(base, SlashClean(q)))
  {
    hide Clean, Split, SlashClean, TrimSpace, Bytes, Hidden, AbsoluteInput;
  }

  /** What normalising makes of two clean operands weighs no more than they do. */
  lemma NormalizedIsLight(base: string, q: string, path: string)
    requires base != "" && SlashClean(base) == base && NormalizeRel(base, q) == Path(path) && path != "."
    ensures TrimSpace(q) != "" && Weight(Split(path)) <= Weight(Split(base)) + Weight(Split(SlashClean(q)))
  {
    hide Clean, Split, SlashClean, TrimSpace, Weight, NormalizeRel;
    var i := SlashClean(q);
    NormalizedCombined(base, q, path);
    SplitConcat(base, i);
    WeightConcat(Split(base), Split(i));
    CleanLightens(base + "/" + i);
    CleanLightens(Combined(base, i));
  }

  lemma WeightOfPath(path: string)
    requires Canonical(path)
    ensures Weight(Split(path)) == Weight(Parts(path))
  {
    SplitWord(".");
    assert Weight(["."]) == 0;
  }

  /** Going down only, what is left after trimming is too light to be the path. */
  lemma DownwardLost(base: string, canonical: string)
    requires Canonical(base) && Canonical(canonical) && base != "" && SlashClean(base) == base && CommonLength(Parts(base), Parts(canonical)) == |Parts(base)|
    requires !Untrimmed(Projected(base, canonical))
    ensures NormalizeRel(base, Projected(base, canonical)) != Path(canonical)
  {
    var b, p, q := Parts(base), Parts(canonical), Projected(base, canonical);
    var down := p[|b|..];
    DownwardParts(base, canonical);
    SpelledRoute(down, 0);
    assert Split(q) == down && Segments(down);
    TrimmedIsLighter(q);
    SlashedKeeps(q);
    CleanLightens(TrimSpace(q));
    WeightConcat(b, down);
    WeightOfPath(base);
    WeightOfPath(canonical);
    assert TrimSpace(q) != "" ==> SlashClean(q) == Clean(TrimSpace(q));
    hide Clean, Split, SlashClean, TrimSpace, Bytes, Canonical, Hidden, AbsoluteInput, Weight, Projected;
    if NormalizeRel(base, q) == Path(canonical) {
      NormalizedIsLight(base, q, canonical);
    }
  }

  lemma DownwardParts(base: string, canonical: string)
    requires Canonical(base) && Canonical(canonical) && CommonLength(Parts(base), Parts(canonical)) == |Parts(base)|
    requires !Untrimmed(Projected(base, canonical))
    ensures var b, p := Parts(base), Parts(canonical);
            var down := p[|b|..];
            Route(down, 0) && down != [] && p == b + down && canonical != "." && Projected(base, canonical) == Spelled(down)
  {
    var b, p := Parts(base), Parts(canonical);
    var down := p[|b|..];
    ProjectedRoute(base, canonical);
    assert Ups(0) + down == down && b[..|b|] == b;
    assert TrimSpace(".") == ".";
  }

  lemma UpwardLost(base: string, canonical: string)
    requires Canonical(base) && Canonical(canonical) && Plain(base) && SlashClean(base) == base
    requires CommonLength(Parts(base), Parts(canonical)) < |Parts(base)| && !Untrimmed(Projected(base, canonical))
    ensures NormalizeRel(base, Projected(base, canonical)) != Path(canonical)
  {
    hide Reduce, Canonical, Segments, Split, Clean, Join, Route, SlashClean, TrimSpace, Weight, CommonLength, Spelled, NormalizeRel, Untrimmed, Ups;
    var b, p, q := Parts(base), Parts(canonical), Projected(base, canonical);
    var n := CommonLength(b, p);
    var ups := |b| - n;
    ProjectedRoute(base, canonical);
    UpsAre(ups);
    var route := Ups(ups) + p[n..];
    assert route[ups..] == p[n..] && b[..|b| - ups] == b[..n];
    var shorter := UpwardTrimmed(route, ups);
    WeightConcat(b[..n], p[n..]);
    var other := UpwardPath(base, b, shorter, ups);
    WeightConcat(b[..n], shorter[ups..]);
    WeightOfPath(canonical);
    assert base != "." && base != "" by {
      assert Parts(".") == [];
    }
    if NormalizeRel(base, q) == Path(canonical) {
      UpwardCanonical(base, canonical);
      NormalizedCombined(base, q, canonical);
    }
  }

  lemma UpwardCanonical(base: string, canonical: string)
    requires Canonical(base) && Canonical(canonical) && !Untrimmed(Projected(base, canonical))
    ensures canonical != "."
  {
    if canonical == "." {
      var b := Parts(base);
      var n := CommonLength(b, []);
      assert Ups(|b| - n) + [] == Ups(|b| - n);
      RouteEdges(|b| - n, []);
    }
  }

  lemma UpwardPath(base: string, b: seq<string>, route: seq<string>, ups: nat) returns (other: string)
    requires Canonical(base) && b == Parts(base) && Route(route, ups) && 0 < ups <= |b|
    ensures Spelled(route) != "." && Clean(base + "/" + Spelled(route)) == other && Clean(other) == other
    ensures Weight(Split(other)) == Weight(b[..|b| - ups] + route[ups..])
  {
    var parts := b[..|b| - ups] + route[ups..];
    CombinedReduces(b, route, ups);
    SpelledRoute(route, ups);
    CanonicalRoute(base);
    SpelledRoute(b, 0);
    assert Route(parts, 0) by {
      assert parts[0..] == parts && parts[..0] == Ups(0);
    }
    SpelledRoute(parts, 0);
    SplitWord(".");
    assert Weight(["."]) == 0;
    other := Spelled(parts);
    hide Reduce, Canonical, Segments, Split, Clean, Join, Route, Weight, Spelled;
    CleanOfJoined(base, Spelled(route), parts);
  }

  /** The round trip succeeds if and only if the projection has no white space at its edges and is not too long. */
  lemma RoundTripIff(base: string, canonical: string)
    requires Canonical(base) && Canonical(canonical) && Untrimmed(base)
    ensures NormalizeRel(base, Projected(base, canonical)) == Path(canonical)
            <==> Untrimmed(Projected(base, canonical)) && Bytes(Projected(base, canonical)) <= PATH_MAX_BYTES
  {
    PlainOperand(base, canonical);
    TakenAsItIs(base);
    hide Clean, SlashClean, TrimSpace, Canonical, Projected, Untrimmed;
    var q := Projected(base, canonical);
    if Untrimmed(q) && Bytes(q) <= PATH_MAX_BYTES {
      RoundTrip(base, canonical);
    } else if Bytes(q) <= PATH_MAX_BYTES {
      if CommonLength(Parts(base), Parts(canonical)) == |Parts(base)| {
        DownwardLost(base, canonical);
      } else {
        UpwardLost(base, canonical);
      }
    }
  }

  // ---- the projection as it is computed ---------------------------------------------------------

  /** A path below the base begins with the base's parts. */
  lemma BelowBase(base: string, rest: string)
    requires base != "." && Canonical(base) && Canonical(base + "/" + rest)
    ensures Projected(base, base + "/" + rest) == rest
  {
    var canonical := base + "/" + rest;
    SplitConcat(base, rest);
    var b, p := Parts(base), Parts(canonical);
    assert p == b + Split(rest);
    assert b[..|b|] == b && p[..|b|] == b;
    CommonIsUnique(b, p, CommonLength(b, p), |b|);
    assert Ups(0) + p[|b|..] == Split(rest);
    JoinSplit(rest);
    assert Segment(p[|b|]);
  }

  lemma AtBase(base: string)
    requires Canonical(base)
    ensures Projected(base, base) == "."
  {
    var b := Parts(base);
    assert b[..|b|] == b;
    CommonIsUnique(b, b, CommonLength(b, b), |b|);
    assert Ups(0) + b[|b|..] == [];
  }

  lemma FromRoot(canonical: string)
    requires Canonical(canonical)
    ensures Projected(".", canonical) == canonical
  {
    CanonicalRoute(canonical);
    var p := Parts(canonical);
    assert Ups(0) + p[0..] == p;
  }

  /** Projects a canonical path, with the shortcuts for the root base, the base itself and paths below it. */
  method Project(base: string, segments: seq<string>, canonical: string) returns (projected: string)
    requires Canonical(base) && Canonical(canonical) && segments == Parts(base)
    ensures projected == Projected(base, canonical)
  {
    hide CommonLength, Ups, Segments, Bytes;
    if base == "." {
      FromRoot(canonical);
      return canonical;
    }
    if canonical == base {
      AtBase(base);
      return ".";
    }
    var prefix := base + "/";
    if |canonical| >= |prefix| && canonical[..|prefix|] == prefix {
      assert canonical == base + "/" + canonical[|prefix|..];
      BelowBase(base, canonical[|prefix|..]);
      return canonical[|prefix|..];
    }
    var target: seq<string> := [];
    if canonical != "." {
      target := Split(canonical);
    }
    hide Canonical, Split, Join;
    var common := SharedParts(segments, target);
    var ups := GoUp(|segments| - common);
    var parts := ups + target[common..];
    projected := if |parts| == 0 then "." else Join(parts);
  }

  method SharedParts(a: seq<string>, b: seq<string>) returns (common: nat)
    ensures common == CommonLength(a, b)
  {
    common := 0;
    while common < |a| && common < |b| && a[common] == b[common]
      invariant common <= |a| && common <= |b| && a[..common] == b[..common]
    {
      common := common + 1;
    }
    CommonIsUnique(a, b, common, CommonLength(a, b));
  }

  method GoUp(n: nat) returns (parts: seq<string>)
    ensures parts == Ups(n)
  {
    parts := [];
    var i := 0;
    while i < n
      invariant 0 <= i <= n && parts == Ups(i)
    {
      UpsAre(i);
      UpsAre(i + 1);
      parts := parts + [".."];
      assert parts == Ups(i + 1);
      i := i + 1;
    }
  }
}
