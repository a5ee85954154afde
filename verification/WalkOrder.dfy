/** Depth-first walking of sorted directories visits files in full-path order. */
module WalkOrder {
  import opened Ordering
  import opened Sorting

  datatype Node = File | Directory(entries: seq<Entry>) | Other

  datatype Entry = Entry(name: string, node: Node)

  type Nfc = string -> string

  predicate Hidden(name: string) { |name| > 0 && name[0] == '.' }

  predicate ValidName(name: string) { name != "" && '/' !in name }

  ghost predicate Distributes(nfc: Nfc, a: string, b: string) { nfc(a + "/" + b) == nfc(a) + "/" + nfc(b) }

  /** What canonical ordering needs of NFC: it works segment by segment. */
  ghost predicate Segmental(nfc: Nfc) {
    (forall a, b :: Distributes(nfc, a, b)) && (forall n :: ValidName(n) ==> ValidName(nfc(n)))
  }

  function JoinRel(parent: string, name: string): string {
    if parent == "." || parent == "" then name else parent + "/" + name
  }

  function PositionOf(nfc: Nfc, rel: string): Position { Position(nfc(rel), rel) }

  /** The key a directory is sorted by is the one its files' paths begin with. */
  function Key(nfc: Nfc, parent: string, e: Entry): Position {
    var p := PositionOf(nfc, JoinRel(parent, e.name));
    if e.node.Directory? then Position(p.nfc + "/", p.stored + "/") else p
  }

  function ByKey(nfc: Nfc, parent: string): (Entry, Entry) -> bool {
    (a: Entry, b: Entry) => ComparePosition(Key(nfc, parent, a), Key(nfc, parent, b)) <= 0
  }

  function Visible(entries: seq<Entry>): seq<Entry> {
    if entries == [] then [] else (if Hidden(entries[0].name) then [] else [entries[0]]) + Visible(entries[1..])
  }

  function Candidates(nfc: Nfc, parent: string, entries: seq<Entry>): seq<Entry> {
    Sort(Visible(entries), ByKey(nfc, parent))
  }

  lemma {:induction false} VisibleMembers(entries: seq<Entry>, e: Entry)
    ensures e in Visible(entries) <==> e in entries && !Hidden(e.name)
  {
    if entries != [] {
      VisibleMembers(entries[1..], e);
      assert e in entries <==> e == entries[0] || e in entries[1..];
    }
  }

  lemma ByKeyIsOrder(nfc: Nfc, parent: string)
    ensures TotalPreorder(ByKey(nfc, parent))
  {
    var leq := ByKey(nfc, parent);
    forall a, b ensures leq(a, b) || leq(b, a) {
      BeforeAsymmetric(Key(nfc, parent, b), Key(nfc, parent, a));
    }
    forall a, b, c | leq(a, b) && leq(b, c) ensures leq(a, c) {
      var (x, y, z) := (Key(nfc, parent, a), Key(nfc, parent, b), Key(nfc, parent, c));
      if Before(x, y) && Before(y, z) {
        BeforeTransitive(x, y, z);
      }
    }
  }

  lemma CandidateMembers(nfc: Nfc, parent: string, entries: seq<Entry>, e: Entry)
    ensures e in Candidates(nfc, parent, entries) <==> e in entries && !Hidden(e.name)
  {
    ByKeyIsOrder(nfc, parent);
    SortKeeps(Visible(entries), ByKey(nfc, parent));
    VisibleMembers(entries, e);
    assert e in Candidates(nfc, parent, entries) <==> e in multiset(Candidates(nfc, parent, entries));
    assert e in Visible(entries) <==> e in multiset(Visible(entries));
  }

  // ---- the files of a walk ----------------------------------------------------------------------

  ghost predicate Under(node: Node, es: seq<Entry>) {
    node.Directory? && forall i :: 0 <= i < |es| ==> es[i] in node.entries
  }

  lemma CandidatesUnder(nfc: Nfc, rel: string, node: Node)
    requires node.Directory?
    ensures var es := Candidates(nfc, rel, node.entries); Under(node, es) && forall i :: 0 <= i < |es| ==> !Hidden(es[i].name)
  {
    var es := Candidates(nfc, rel, node.entries);
    forall i | 0 <= i < |es| ensures es[i] in node.entries && !Hidden(es[i].name) {
      CandidateMembers(nfc, rel, node.entries, es[i]);
    }
  }

  /** Everything a walk visits below an opened directory, in the order it visits it. */
  ghost function FilesIn(nfc: Nfc, parent: string, node: Node): seq<Position>
    requires node.Directory?
    decreases node, 1, 0
  {
    var es := Candidates(nfc, parent, node.entries);
    CandidatesUnder(nfc, parent, node);
    FilesFrom(nfc, parent, node, es)
  }

  ghost function FilesFrom(nfc: Nfc, parent: string, node: Node, es: seq<Entry>): seq<Position>
    requires Under(node, es)
    decreases node, 0, |es|
  {
    if es == [] then [] else FilesOf(nfc, parent, node, es[0]) + FilesFrom(nfc, parent, node, es[1..])
  }

  ghost function FilesOf(nfc: Nfc, parent: string, node: Node, e: Entry): seq<Position>
    requires node.Directory? && e in node.entries
    decreases node, 0, 0
  {
    var rel := JoinRel(parent, e.name);
    match e.node
    case File => [PositionOf(nfc, rel)]
    case Other => []
    case Directory(_) =>
      assert e.node < node by {
        var k :| 0 <= k < |node.entries| && node.entries[k] == e;
      }
      FilesIn(nfc, rel, e.node)
  }

  /** A regular file that no hidden name leads to. */
  ghost predicate Holds(parent: string, node: Node, rel: string)
    requires node.Directory?
    decreases node
  {
    exists k :: 0 <= k < |node.entries| && (node.entries[k].name == "" || node.entries[k].name[0] != '.') && HeldBy(parent, node.entries[k], rel)
  }

  ghost predicate HeldBy(parent: string, e: Entry, rel: string)
    decreases e
  {
    (e.node.File? && rel == JoinRel(parent, e.name)) || (e.node.Directory? && Holds(JoinRel(parent, e.name), e.node, rel))
  }

  /** Names are single segments, and no two visible siblings have the same NFC form. */
  ghost predicate WellFormed(nfc: Nfc, node: Node)
    decreases node
  {
    node.Directory? ==>
      && (forall k :: 0 <= k < |node.entries| ==> ValidName(node.entries[k].name) && WellFormed(nfc, node.entries[k].node))
      && (forall i, j :: 0 <= i < j < |node.entries| && !Hidden(node.entries[i].name) && !Hidden(node.entries[j].name) ==>
            nfc(node.entries[i].name) != nfc(node.entries[j].name))
  }

  // ---- strings with common beginnings -----------------------------------------------------------

  ghost predicate Begins(a: string, b: string) { |a| <= |b| && b[..|a|] == a }

  lemma {:induction false} LessBehind(p: string, a: string, b: string)
    ensures Less(p + a, p + b) <==> Less(a, b)
  {
    if p == [] {
      assert p + a == a && p + b == b;
    } else {
      assert (p + a)[1..] == p[1..] + a && (p + b)[1..] == p[1..] + b;
      LessBehind(p[1..], a, b);
    }
  }

  /** If a comes before b and b does not begin with a, anything behind a comes before anything behind b. */
  lemma {:induction false} LessDiverges(a: string, x: string, b: string, y: string)
    requires Less(a, b) && (x == "" || !Begins(a, b))
    ensures Less(a + x, b + y)
  {
    if a == [] {
      assert Begins(a, b);
      assert (b + y)[0] == b[0];
    } else {
      assert (a + x)[1..] == a[1..] + x && (b + y)[1..] == b[1..] + y && (a + x)[0] == a[0] && (b + y)[0] == b[0];
      if a[0] == b[0] {
        if Begins(a[1..], b[1..]) {
          assert a == [a[0]] + a[1..] && b[..|a|] == [b[0]] + b[1..][..|a| - 1];
          assert Begins(a, b);
        }
        LessDiverges(a[1..], x, b[1..], y);
      }
    }
  }

  // ---- siblings ---------------------------------------------------------------------------------

  function Base(nfc: Nfc, parent: string): string {
    if parent == "." || parent == "" then "" else nfc(parent) + "/"
  }

  lemma JoinedNfc(nfc: Nfc, parent: string, name: string)
    requires Segmental(nfc)
    ensures nfc(JoinRel(parent, name)) == Base(nfc, parent) + nfc(name)
  {
    assert Distributes(nfc, parent, name);
    assert "" + nfc(name) == nfc(name);
  }

  function Slash(e: Entry): string { if e.node.Directory? then "/" else "" }

  lemma KeyNfc(nfc: Nfc, parent: string, e: Entry)
    requires Segmental(nfc)
    ensures Key(nfc, parent, e).nfc == Base(nfc, parent) + (nfc(e.name) + Slash(e))
  {
    JoinedNfc(nfc, parent, e.name);
    assert Base(nfc, parent) + nfc(e.name) + "/" == Base(nfc, parent) + (nfc(e.name) + "/");
    assert nfc(e.name) + "" == nfc(e.name);
  }

  lemma SlashInside(n: string, slash: string, k: nat)
    requires k < |n| && (n + slash)[k] == '/'
    ensures '/' in n
  {
  }

  lemma SameHead(m: string, s: string, n: string, t: string)
    requires |m| == |n| && |m + s| <= |n + t| && (n + t)[..|m + s|] == m + s
    ensures m == n
  {
    assert m == (m + s)[..|m|] && n == (n + t)[..|m + s|][..|n|];
  }

  lemma BeginsMeans(m: string, n: string, slash: string)
    requires Begins(m + "/", n + slash) && (slash == "" || slash == "/")
    ensures '/' in n || m == n
  {
    assert (n + slash)[..|m| + 1][|m|] == '/';
    if |m| < |n| {
      SlashInside(n, slash, |m|);
    } else {
      SameHead(m, "/", n, slash);
    }
  }

  /** A directory's key is the beginning of no other sibling's key. */
  lemma DirectoryKeyDiverges(m: string, n: string, slash: string)
    requires ValidName(m) && ValidName(n) && m != n && (slash == "" || slash == "/")
    ensures !Begins(m + "/", n + slash)
  {
    if Begins(m + "/", n + slash) {
      BeginsMeans(m, n, slash);
    }
  }

  /** All files below one sibling come before all files below a later one. */
  lemma SiblingsApart(nfc: Nfc, parent: string, a: Entry, b: Entry, x: string, y: string)
    requires Segmental(nfc) && ValidName(a.name) && ValidName(b.name) && nfc(a.name) != nfc(b.name)
    requires ComparePosition(Key(nfc, parent, a), Key(nfc, parent, b)) <= 0 && (a.node.Directory? || x == "")
    ensures Less(Key(nfc, parent, a).nfc + x, Key(nfc, parent, b).nfc + y)
  {
    hide Key, Less, ComparePosition, Segmental, Base, ValidName, Begins;
    var base, m, n := Base(nfc, parent), nfc(a.name), nfc(b.name);
    KeyNfc(nfc, parent, a);
    KeyNfc(nfc, parent, b);
    var k, l := m + Slash(a), n + Slash(b);
    NamesValid(nfc, a.name);
    NamesValid(nfc, b.name);
    KeysDiffer(m, n, Slash(a), Slash(b));
    LessBy(nfc, parent, a, b, base, k, l);
    LessBehind(base, k, l);
    if a.node.Directory? {
      DirectoryKeyDiverges(m, n, Slash(b));
    }
    LessDiverges(k, x, l, y);
    LessBehind(base, k + x, l + y);
    assert base + k + x == base + (k + x) && base + l + y == base + (l + y);
  }

  lemma NamesValid(nfc: Nfc, name: string)
    requires Segmental(nfc) && ValidName(name)
    ensures ValidName(nfc(name))
  {
  }

  lemma LessBy(nfc: Nfc, parent: string, a: Entry, b: Entry, base: string, k: string, l: string)
    requires ComparePosition(Key(nfc, parent, a), Key(nfc, parent, b)) <= 0 && k != l
    requires Key(nfc, parent, a).nfc == base + k && Key(nfc, parent, b).nfc == base + l
    ensures Less(base + k, base + l)
  {
    LessTotal(base + k, base + l);
    assert base + k != base + l by {
      assert (base + k)[|base|..] == k && (base + l)[|base|..] == l;
    }
    hide Key, Less;
  }

  lemma LongerHasSlash(m: string, s: string, n: string, t: string)
    requires m + s == n + t && |m| < |n| && (s == "" || s == "/")
    ensures '/' in n
  {
    assert (m + s)[|m|] == '/';
    assert (n + t)[|m|] == n[|m|];
  }

  lemma KeysDiffer(m: string, n: string, s: string, t: string)
    requires ValidName(m) && ValidName(n) && m != n && (s == "" || s == "/") && (t == "" || t == "/")
    ensures m + s != n + t
  {
    if m + s == n + t {
      if |m| < |n| {
        LongerHasSlash(m, s, n, t);
      } else if |n| < |m| {
        LongerHasSlash(n, t, m, s);
      } else {
        assert (n + t)[..|m + s|] == m + s;
        SameHead(m, s, n, t);
      }
    }
  }

  lemma JoinedIsNoRoot(parent: string, name: string)
    requires ValidName(name) && !Hidden(name)
    ensures JoinRel(parent, name) != "." && JoinRel(parent, name) != ""
  {
  }

  /** Every file below an entry has the entry's key at the front of its path. */
  lemma {:induction false} FilesBegin(nfc: Nfc, parent: string, node: Node, e: Entry, p: Position)
    requires Segmental(nfc) && node.Directory? && e in node.entries && ValidName(e.name) && !Hidden(e.name) && WellFormed(nfc, e.node)
    requires p in FilesOf(nfc, parent, node, e)
    ensures Begins(Key(nfc, parent, e).nfc, p.nfc) && (e.node.File? ==> p == Key(nfc, parent, e)) && !e.node.Other?
    decreases node, 0
  {
    if e.node.Directory? {
      var k :| 0 <= k < |node.entries| && node.entries[k] == e;
      var rel := JoinRel(parent, e.name);
      var es := Candidates(nfc, rel, e.node.entries);
      JoinedIsNoRoot(parent, e.name);
      CandidatesUnder(nfc, rel, e.node);
      hide Candidates;
      FilesInBegin(nfc, rel, e.node, es, p);
      assert Key(nfc, parent, e).nfc == nfc(rel) + "/";
    }
  }

  lemma {:induction false} FilesInBegin(nfc: Nfc, rel: string, node: Node, es: seq<Entry>, p: Position)
    requires Segmental(nfc) && WellFormed(nfc, node) && Under(node, es) && rel != "." && rel != "" && p in FilesFrom(nfc, rel, node, es)
    requires forall i :: 0 <= i < |es| ==> !Hidden(es[i].name)
    ensures Begins(nfc(rel) + "/", p.nfc)
    decreases node, 1, |es|
  {
    var e := es[0];
    if p in FilesOf(nfc, rel, node, e) {
      assert ValidName(e.name) && WellFormed(nfc, e.node);
      hide WellFormed, FilesOf, FilesFrom, ValidName, Hidden;
      FilesBegin(nfc, rel, node, e, p);
      KeyNfc(nfc, rel, e);
      BeginsBase(nfc(rel) + "/", nfc(e.name) + Slash(e), p.nfc);
    } else {
      hide WellFormed, FilesOf;
      FilesInBegin(nfc, rel, node, es[1..], p);
    }
  }

  lemma BeginsBase(base: string, more: string, s: string)
    requires Begins(base + more, s)
    ensures Begins(base, s)
  {
    assert base == (base + more)[..|base|];
    assert s[..|base + more|][..|base|] == s[..|base|];
  }

  // ---- the whole walk ---------------------------------------------------------------------------

  function NfcName(nfc: Nfc): Entry -> string {
    (e: Entry) => nfc(e.name)
  }

  lemma {:induction false} VisibleDistinct(nfc: Nfc, entries: seq<Entry>)
    requires forall i, j :: 0 <= i < j < |entries| && !Hidden(entries[i].name) && !Hidden(entries[j].name) ==> nfc(entries[i].name) != nfc(entries[j].name)
    ensures Distinct(Visible(entries), NfcName(nfc))
  {
    if entries != [] {
      VisibleDistinct(nfc, entries[1..]);
      var rest := Visible(entries[1..]);
      if !Hidden(entries[0].name) {
        forall j | 0 <= j < |rest| ensures nfc(rest[j].name) != nfc(entries[0].name) {
          VisibleMembers(entries[1..], rest[j]);
          var k :| 0 <= k < |entries[1..]| && entries[1..][k] == rest[j];
          assert entries[k + 1] == rest[j];
        }
      }
    }
  }

  /** The sorted candidates of a well-formed directory. */
  ghost predicate Siblings(nfc: Nfc, parent: string, node: Node, es: seq<Entry>) {
    && Under(node, es) && WellFormed(nfc, node) && Sorted(es, ByKey(nfc, parent)) && Distinct(es, NfcName(nfc))
    && forall i :: 0 <= i < |es| ==> !Hidden(es[i].name)
  }

  lemma CandidatesAreSiblings(nfc: Nfc, parent: string, node: Node)
    requires node.Directory? && WellFormed(nfc, node)
    ensures Siblings(nfc, parent, node, Candidates(nfc, parent, node.entries))
  {
    CandidatesUnder(nfc, parent, node);
    ByKeyIsOrder(nfc, parent);
    SortKeeps(Visible(node.entries), ByKey(nfc, parent));
    VisibleDistinct(nfc, node.entries);
    SortKeepsDistinct(Visible(node.entries), ByKey(nfc, parent), NfcName(nfc));
  }

  lemma {:induction false} OwnerOf(nfc: Nfc, parent: string, node: Node, es: seq<Entry>, q: Position) returns (k: nat)
    requires Under(node, es) && q in FilesFrom(nfc, parent, node, es)
    ensures k < |es| && q in FilesOf(nfc, parent, node, es[k])
  {
    if q in FilesOf(nfc, parent, node, es[0]) {
      k := 0;
    } else {
      k := OwnerOf(nfc, parent, node, es[1..], q);
      k := k + 1;
    }
  }

  lemma FilesApart(nfc: Nfc, parent: string, node: Node, a: Entry, b: Entry, p: Position, q: Position)
    requires Segmental(nfc) && node.Directory? && WellFormed(nfc, node) && a in node.entries && b in node.entries
    requires !Hidden(a.name) && !Hidden(b.name) && nfc(a.name) != nfc(b.name) && ByKey(nfc, parent)(a, b)
    requires p in FilesOf(nfc, parent, node, a) && q in FilesOf(nfc, parent, node, b)
    ensures Before(p, q)
  {
    assert ValidName(a.name) && ValidName(b.name) && WellFormed(nfc, a.node) && WellFormed(nfc, b.node);
    hide WellFormed, ValidName, Hidden;
    FilesBegin(nfc, parent, node, a, p);
    FilesBegin(nfc, parent, node, b, q);
    hide FilesOf, Key;
    var k, l := Key(nfc, parent, a).nfc, Key(nfc, parent, b).nfc;
    var x, y := p.nfc[|k|..], q.nfc[|l|..];
    assert p.nfc == k + x && q.nfc == l + y;
    SiblingsApart(nfc, parent, a, b, x, y);
  }

  lemma AscendingConcat(a: seq<Position>, b: seq<Position>)
    requires Ascending(a) && Ascending(b) && forall p, q :: p in a && q in b ==> Before(p, q)
    ensures Ascending(a + b)
  {
    forall i, j | 0 <= i < j < |a + b| ensures Before((a + b)[i], (a + b)[j]) {
      if i < |a| <= j {
        assert a[i] in a && b[j - |a|] in b;
      }
    }
  }

  /** A walk visits files in strictly increasing full-path order. */
  lemma {:induction false} WalkIsAscending(nfc: Nfc, parent: string, node: Node)
    requires Segmental(nfc) && node.Directory? && WellFormed(nfc, node)
    ensures Ascending(FilesIn(nfc, parent, node))
    decreases node, 1, 0
  {
    CandidatesAreSiblings(nfc, parent, node);
    SiblingsAscending(nfc, parent, node, Candidates(nfc, parent, node.entries));
  }

  lemma {:induction false} SiblingsAscending(nfc: Nfc, parent: string, node: Node, es: seq<Entry>)
    requires Segmental(nfc) && Siblings(nfc, parent, node, es)
    ensures Ascending(FilesFrom(nfc, parent, node, es))
    decreases node, 0, |es|
  {
    if es != [] {
      var e, rest := es[0], es[1..];
      if e.node.Directory? {
        var k :| 0 <= k < |node.entries| && node.entries[k] == e;
        WalkIsAscending(nfc, JoinRel(parent, e.name), e.node);
      }
      SiblingsAscending(nfc, parent, node, rest);
      var a, b := FilesOf(nfc, parent, node, e), FilesFrom(nfc, parent, node, rest);
      forall p, q | p in a && q in b ensures Before(p, q) {
        var k := OwnerOf(nfc, parent, node, rest, q);
        assert rest[k] == es[k + 1] && ByKey(nfc, parent)(es[0], es[k + 1]) && NfcName(nfc)(es[0]) != NfcName(nfc)(es[k + 1]);
        FilesApart(nfc, parent, node, e, rest[k], p, q);
      }
      AscendingConcat(a, b);
    }
  }

  lemma {:induction false} VisitedIsHeld(nfc: Nfc, parent: string, node: Node, p: Position)
    requires node.Directory? && p in FilesIn(nfc, parent, node)
    ensures Holds(parent, node, p.stored) && p == PositionOf(nfc, p.stored)
    decreases node
  {
    var es := Candidates(nfc, parent, node.entries);
    CandidatesUnder(nfc, parent, node);
    hide Candidates;
    var k := OwnerOf(nfc, parent, node, es, p);
    var i :| 0 <= i < |node.entries| && node.entries[i] == es[k];
    var e := node.entries[i];
    if e.node.Directory? {
      VisitedIsHeld(nfc, JoinRel(parent, e.name), e.node, p);
    }
  }

  lemma {:induction false} HeldIsVisited(nfc: Nfc, parent: string, node: Node, rel: string)
    requires node.Directory? && Holds(parent, node, rel)
    ensures PositionOf(nfc, rel) in FilesIn(nfc, parent, node)
    decreases node, 1
  {
    var es := Candidates(nfc, parent, node.entries);
    var i :| 0 <= i < |node.entries| && !Hidden(node.entries[i].name) && HeldBy(parent, node.entries[i], rel);
    var e := node.entries[i];
    hide Candidates;
    HeldIsInFiles(nfc, parent, node, i, rel);
    CandidateMembers(nfc, parent, node.entries, e);
    CandidatesUnder(nfc, parent, node);
    hide FilesOf, Holds;
    var k :| 0 <= k < |es| && es[k] == e;
    OwnedIsVisited(nfc, parent, node, es, k, PositionOf(nfc, rel));
  }

  lemma {:induction false} HeldIsInFiles(nfc: Nfc, parent: string, node: Node, i: nat, rel: string)
    requires node.Directory? && i < |node.entries| && HeldBy(parent, node.entries[i], rel)
    ensures PositionOf(nfc, rel) in FilesOf(nfc, parent, node, node.entries[i])
    decreases node, 0
  {
    var e := node.entries[i];
    if e.node.Directory? {
      HeldIsVisited(nfc, JoinRel(parent, e.name), e.node, rel);
    }
  }

  /** Every regular file that no hidden name leads to is visited, and nothing else; by the order above, once. */
  lemma WalkIsComplete(nfc: Nfc, parent: string, node: Node, p: Position)
    requires node.Directory?
    ensures p in FilesIn(nfc, parent, node) <==> Holds(parent, node, p.stored) && p == PositionOf(nfc, p.stored)
  {
    if p in FilesIn(nfc, parent, node) {
      VisitedIsHeld(nfc, parent, node, p);
    }
    if Holds(parent, node, p.stored) {
      HeldIsVisited(nfc, parent, node, p.stored);
    }
  }

  lemma {:induction false} OwnedIsVisited(nfc: Nfc, parent: string, node: Node, es: seq<Entry>, k: nat, p: Position)
    requires Under(node, es) && k < |es| && p in FilesOf(nfc, parent, node, es[k])
    ensures p in FilesFrom(nfc, parent, node, es)
  {
    if k > 0 {
      OwnedIsVisited(nfc, parent, node, es[1..], k - 1, p);
    }
  }

  // ---- stopping ---------------------------------------------------------------------------------

  /** What a visitor decides may depend on everything it has seen; `stops` says whether it stops after these files. */
  type Visitor = seq<Position> -> bool

  function Until(visited: seq<Position>, files: seq<Position>, stops: Visitor): (seq<Position>, bool)
    decreases |files|
  {
    if files == [] then (visited, false)
    else if stops(visited + [files[0]]) then (visited + [files[0]], true)
    else Until(visited + [files[0]], files[1..], stops)
  }

  lemma {:induction false} UntilConcat(visited: seq<Position>, a: seq<Position>, b: seq<Position>, stops: Visitor)
    ensures var (seen, stopped) := Until(visited, a, stops); Until(visited, a + b, stops) == if stopped then (seen, true) else Until(seen, b, stops)
    decreases |a|
  {
    if a == [] {
      assert a + b == b;
    } else {
      assert (a + b)[1..] == a[1..] + b;
      UntilConcat(visited + [a[0]], a[1..], b, stops);
    }
  }

  /** A stop leaves a beginning of the full walk, ending where the visitor first stopped. */
  lemma {:induction false} UntilIsPrefix(visited: seq<Position>, files: seq<Position>, stops: Visitor) returns (n: nat)
    ensures n <= |files| && Until(visited, files, stops).0 == visited + files[..n]
    ensures if Until(visited, files, stops).1 then n > 0 && stops(visited + files[..n]) else n == |files|
    ensures forall k :: 0 < k < n ==> !stops(visited + files[..k])
    decreases |files|
  {
    if files == [] {
      n := 0;
      assert visited + files[..0] == visited;
    } else {
      assert visited + files[..1] == visited + [files[0]];
      if stops(visited + [files[0]]) {
        n := 1;
      } else {
        n := UntilIsPrefix(visited + [files[0]], files[1..], stops);
        n := n + 1;
        forall k | 0 <= k < n ensures visited + [files[0]] + files[1..][..k] == visited + files[..k + 1] {
        }
        assert visited + files[..n] == visited + [files[0]] + files[1..][..n - 1];
        forall k | 0 < k < n ensures !stops(visited + files[..k]) {
          if k > 1 {
            assert visited + files[..k] == visited + [files[0]] + files[1..][..k - 1];
          }
        }
      }
    }
  }

  /** The recursive walk: sorts one directory at a time, descends at once, and stops as soon as the visitor says so. */
  method WalkOpenedDirectory(nfc: Nfc, parent: string, node: Node, stops: Visitor, visited: seq<Position>) returns (seen: seq<Position>, stopped: bool)
    requires node.Directory?
    ensures (seen, stopped) == Until(visited, FilesIn(nfc, parent, node), stops)
    decreases node
  {
    var es := Candidates(nfc, parent, node.entries);
    CandidatesUnder(nfc, parent, node);
    hide Candidates, WellFormed, Holds;
    seen, stopped := visited, false;
    var i := 0;
    assert es[0..] == es;
    while i < |es|
      invariant 0 <= i <= |es| && !stopped && Under(node, es[i..])
      invariant Until(visited, FilesFrom(nfc, parent, node, es), stops) == Until(seen, FilesFrom(nfc, parent, node, es[i..]), stops)
    {
      var e := es[i];
      ghost var k :| 0 <= k < |node.entries| && node.entries[k] == e;
      assert es[i..][0] == e && es[i..][1..] == es[i + 1..];
      UntilConcat(seen, FilesOf(nfc, parent, node, e), FilesFrom(nfc, parent, node, es[i + 1..]), stops);
      var rel := JoinRel(parent, e.name);
      if e.node.Directory? {
        seen, stopped := WalkOpenedDirectory(nfc, rel, e.node, stops, seen);
        if stopped {
          return;
        }
      } else if e.node.File? {
        var next := seen + [PositionOf(nfc, rel)];
        assert Until(seen, [PositionOf(nfc, rel)], stops) == (next, stops(next));
        seen := next;
        if stops(seen) {
          return seen, true;
        }
      }
      i := i + 1;
    }
  }
}
