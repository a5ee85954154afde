/** What normalising accepts, and why it denies, said of the segments that base and input reduce to. */
module VaultRequests {
  import opened Ordering
  import opened VaultPaths

  /** A request's text as it is taken: forward slashes, no white space around it. */
  function Taken(s: string): string {
    TrimSpace(Slashed(s))
  }

  predicate Rooted(s: string) {
    s != "" && s[0] == '/'
  }

  /** The segments a text reduces to. */
  function Reduced(s: string): seq<string> {
    Reduce([], Split(s), Rooted(s))
  }

  /** The base names the place the vault begins at. */
  predicate AtRoot(s: string) {
    !Rooted(s) && Reduced(s) == []
  }

  /** Whether white space has hidden a leading slash that then decides where the path begins. */
  predicate FromRoot(base: string, input: string) {
    Rooted(Taken(base)) || (AtRoot(Taken(base)) && Rooted(Taken(input)))
  }

  /** The segments of the requested path: the input's, taken from the base's. */
  function Requested(base: string, input: string): seq<string> {
    Reduce(Reduced(Taken(base)), Reduced(Taken(input)), FromRoot(base, input))
  }

  /** A path of these segments. */
  function Form(parts: seq<string>, rooted: bool): string {
    if rooted then "/" + (if parts == [] then "" else Join(parts)) else Spelled(parts)
  }

  ghost predicate Tidy(parts: seq<string>) {
    forall k :: 0 <= k < |parts| ==> parts[k] != "" && parts[k] != "." && '/' !in parts[k]
  }

  // ---- reducing ---------------------------------------------------------------------------------

  lemma {:induction false} ReduceConcat(kept: seq<string>, a: seq<string>, b: seq<string>, rooted: bool)
    ensures Reduce(kept, a + b, rooted) == Reduce(Reduce(kept, a, rooted), b, rooted)
    decreases |a|
  {
    if a == [] {
      assert a + b == b;
    } else {
      assert (a + b)[1..] == a[1..] + b;
      var part := a[0];
      if part == "" || part == "." {
        ReduceConcat(kept, a[1..], b, rooted);
      } else if part == ".." && kept != [] && kept[|kept| - 1] != ".." {
        ReduceConcat(kept[..|kept| - 1], a[1..], b, rooted);
      } else if part == ".." && rooted {
        ReduceConcat(kept, a[1..], b, rooted);
      } else {
        ReduceConcat(kept + [part], a[1..], b, rooted);
      }
    }
  }

  lemma {:induction false} ReduceTidies(kept: seq<string>, parts: seq<string>, rooted: bool)
    requires Tidy(kept) && forall k :: 0 <= k < |parts| ==> '/' !in parts[k]
    ensures Tidy(Reduce(kept, parts, rooted))
    decreases |parts|
  {
    if parts != [] {
      var part, rest := parts[0], parts[1..];
      if part == "" || part == "." {
        ReduceTidies(kept, rest, rooted);
      } else if part == ".." && kept != [] && kept[|kept| - 1] != ".." {
        ReduceTidies(kept[..|kept| - 1], rest, rooted);
      } else if part == ".." && rooted {
        ReduceTidies(kept, rest, rooted);
      } else {
        ReduceTidies(kept + [part], rest, rooted);
      }
    }
  }

  lemma ReduceLast(kept: seq<string>, parts: seq<string>, x: string, rooted: bool)
    ensures Reduce(kept, parts + [x], rooted) ==
            var r := Reduce(kept, parts, rooted);
            if x == "" || x == "." then r
            else if x == ".." then (if r != [] && r[|r| - 1] != ".." then r[..|r| - 1] else if rooted then r else r + [x])
            else r + [x]
  {
    ReduceConcat(kept, parts, [x], rooted);
    assert [x][1..] == [];
  }

  /** Reducing what is already reduced changes nothing. */
  lemma {:induction false} ReduceTwice(parts: seq<string>, rooted: bool)
    requires forall k :: 0 <= k < |parts| ==> '/' !in parts[k]
    ensures Reduce([], Reduce([], parts, rooted), rooted) == Reduce([], parts, rooted)
    decreases |parts|
  {
    if parts != [] {
      var n := |parts| - 1;
      var front, x := parts[..n], parts[n];
      assert parts == front + [x];
      ReduceTwice(front, rooted);
      ReduceTidies([], front, rooted);
      ReduceLast([], front, x, rooted);
      var r := Reduce([], front, rooted);
      hide Reduce;
      if x == ".." && r != [] && r[|r| - 1] != ".." {
        var m := |r| - 1;
        assert r == r[..m] + [r[m]];
        ReduceLast([], r[..m], r[m], rooted);
      } else {
        ReduceLast([], r, x, rooted);
      }
    }
  }

  /** Reducing from a root leaves nothing that goes up. */
  lemma {:induction false} NoUps(parts: seq<string>)
    requires forall k :: 0 <= k < |parts| ==> '/' !in parts[k]
    ensures forall k :: 0 <= k < |Reduce([], parts, true)| ==> Reduce([], parts, true)[k] != ".."
    decreases |parts|
  {
    if parts != [] {
      var n := |parts| - 1;
      assert parts == parts[..n] + [parts[n]];
      NoUps(parts[..n]);
      ReduceLast([], parts[..n], parts[n], true);
    }
  }

  /** Segments with nothing to reduce are appended as they are. */
  lemma {:induction false} ReduceAppends(kept: seq<string>, parts: seq<string>, rooted: bool)
    requires Tidy(parts) && forall k :: 0 <= k < |parts| ==> parts[k] != ".."
    ensures Reduce(kept, parts, rooted) == kept + parts
    decreases |parts|
  {
    if parts != [] {
      assert Tidy(parts[1..]);
      ReduceAppends(kept + [parts[0]], parts[1..], rooted);
      assert kept + [parts[0]] + parts[1..] == kept + parts;
    } else {
      assert kept + [] == kept;
    }
  }

  lemma ReducedTidy(s: string)
    ensures Tidy(Reduced(s)) && (Rooted(s) ==> forall k :: 0 <= k < |Reduced(s)| ==> Reduced(s)[k] != "..")
  {
    SplitIntoWords(s);
    ReduceTidies([], Split(s), Rooted(s));
    if Rooted(s) {
      NoUps(Split(s));
    }
  }

  // ---- cleaning ---------------------------------------------------------------------------------

  lemma CleanIsForm(s: string)
    ensures s != "" ==> Clean(s) == Form(Reduced(s), Rooted(s))
    ensures s == "" ==> Reduced(s) == []
  {
    if s == "" {
      assert Split("") == [""];
    }
  }

  lemma FormStarts(parts: seq<string>, rooted: bool)
    requires Tidy(parts)
    ensures Form(parts, rooted) != "" && Rooted(Form(parts, rooted)) == rooted
    ensures parts == [] ==> Form(parts, rooted) == (if rooted then "/" else ".")
    ensures parts != [] ==> Form(parts, rooted) != "/" && Form(parts, rooted) != "."
  {
    if parts != [] {
      assert parts[0] != "" && parts[0][0] in parts[0];
      JoinStarts(parts);
      if |parts| > 1 {
        assert |Join(parts)| >= 2;
      }
    }
  }

  /** A form splits into its segments, with an empty one in front if it is rooted. */
  lemma FormSplits(parts: seq<string>, rooted: bool)
    requires Tidy(parts)
    ensures parts != [] ==> Split(Form(parts, rooted)) == (if rooted then [""] else []) + parts
    ensures parts == [] ==> Split(Form(parts, rooted)) == if rooted then ["", ""] else ["."]
  {
    SplitWord("");
    SplitWord(".");
    if parts != [] {
      SplitJoin(parts);
      SplitConcat("", Join(parts));
      assert "" + "/" + Join(parts) == "/" + Join(parts);
    } else {
      SplitConcat("", "");
      assert "" + "/" + "" == "/";
    }
  }

  lemma DropsEmpty(kept: seq<string>, parts: seq<string>, rooted: bool)
    ensures Reduce(kept, [""] + parts, rooted) == Reduce(kept, parts, rooted)
    ensures Reduce(kept, ["."] + parts, rooted) == Reduce(kept, parts, rooted)
  {
    assert ([""] + parts)[1..] == parts && (["."] + parts)[1..] == parts;
  }

  /** Reducing a form's text behind any segments is reducing its segments there. */
  lemma FormReduces(kept: seq<string>, parts: seq<string>, formed: bool, rooted: bool)
    requires Tidy(parts)
    ensures Reduce(kept, Split(Form(parts, formed)), rooted) == Reduce(kept, parts, rooted)
  {
    FormSplits(parts, formed);
    DropsEmpty(kept, parts, rooted);
    if parts == [] {
      DropsEmpty(kept, [""], rooted);
      DropsEmpty(kept, [], rooted);
      assert [""] + [""] == ["", ""] && [""] + [] == [""] && ["."] + [] == ["."];
    } else {
      assert [] + parts == parts;
    }
  }

  /** Cleaning a form of segments that are reduced already leaves it as it is. */
  lemma CleanKeepsForm(parts: seq<string>, rooted: bool)
    requires Tidy(parts) && Reduce([], parts, rooted) == parts
    ensures Clean(Form(parts, rooted)) == Form(parts, rooted)
  {
    FormStarts(parts, rooted);
    FormReduces([], parts, rooted, rooted);
    CleanIsForm(Form(parts, rooted));
  }

  // ---- the request ------------------------------------------------------------------------------

  lemma SlashCleaned(s: string)
    ensures SlashClean(s) == (if Taken(s) == "" then "" else Form(Reduced(Taken(s)), Rooted(Taken(s))))
  {
    CleanIsForm(Taken(s));
  }

  /** The input's segments, reduced for themselves, behind the base's. */
  lemma JoinedReduces(b: string, i: string)
    ensures Reduce([], Split(Form(Reduced(b), Rooted(b))) + Split(Form(Reduced(i), Rooted(i))), Rooted(b)) == Reduce(Reduced(b), Reduced(i), Rooted(b))
  {
    ReducedTidy(b);
    ReducedTidy(i);
    var x, y := Split(Form(Reduced(b), Rooted(b))), Split(Form(Reduced(i), Rooted(i)));
    ReduceConcat([], x, y, Rooted(b));
    FormReduces([], Reduced(b), Rooted(b), Rooted(b));
    SplitIntoWords(b);
    ReduceTwice(Split(b), Rooted(b));
    FormReduces(Reduced(b), Reduced(i), Rooted(i), Rooted(b));
  }

  lemma RequestTidy(base: string, input: string)
    ensures Tidy(Requested(base, input)) && Reduce([], Requested(base, input), FromRoot(base, input)) == Requested(base, input)
  {
    var b, i := Taken(base), Taken(input);
    var rooted := FromRoot(base, input);
    ReducedTidy(b);
    ReducedTidy(i);
    ReduceTidies(Reduced(b), Reduced(i), rooted);
    SplitIntoWords(b);
    ReduceTwice(Split(b), Rooted(b));
    assert Reduce([], Reduced(b), rooted) == Reduced(b) by {
      if rooted != Rooted(b) {
        assert Reduced(b) == [];
      }
    }
    ReduceConcat([], Reduced(b), Reduced(i), rooted);
    assert forall k :: 0 <= k < |Reduced(b) + Reduced(i)| ==> '/' !in (Reduced(b) + Reduced(i))[k];
    ReduceTwice(Reduced(b) + Reduced(i), rooted);
  }

  /** The two operands, cleaned, joined and cleaned again, are the form of the requested segments. */
  lemma CombinedIsRequested(base: string, input: string)
    requires Taken(input) != ""
    ensures var b := if SlashClean(base) == "" then "." else SlashClean(base);
            Clean(Combined(b, SlashClean(input))) == Form(Requested(base, input), FromRoot(base, input))
  {
    var s, t := Taken(base), Taken(input);
    SlashCleaned(base);
    SlashCleaned(input);
    CleanIsForm(s);
    ReducedTidy(s);
    ReducedTidy(t);
    FormStarts(Reduced(s), Rooted(s));
    FormStarts(Reduced(t), Rooted(t));
    RequestTidy(base, input);
    CleanKeepsForm(Requested(base, input), FromRoot(base, input));
    var b, i := Form(Reduced(s), Rooted(s)), Form(Reduced(t), Rooted(t));
    assert s == "" ==> b == ".";
    hide Clean, Reduce, Form, Split, Join, SlashClean, Taken, Requested;
    OperandsCombine(s, t, b, i);
    assert Requested(base, input) == Reduce(Reduced(s), Reduced(t), FromRoot(base, input)) by {
      RequestedIs(base, input);
    }
    assert FromRoot(base, input) == (Rooted(s) || (AtRoot(s) && Rooted(t)));
  }

  lemma RequestedIs(base: string, input: string)
    ensures Requested(base, input) == Reduce(Reduced(Taken(base)), Reduced(Taken(input)), FromRoot(base, input))
  {
  }

  lemma OperandsCombine(s: string, t: string, b: string, i: string)
    requires b == Form(Reduced(s), Rooted(s)) && i == Form(Reduced(t), Rooted(t))
    ensures var rooted := Rooted(s) || (AtRoot(s) && Rooted(t));
            Combined(b, i) == Form(Reduce(Reduced(s), Reduced(t), rooted), rooted)
  {
    var rooted := Rooted(s) || (AtRoot(s) && Rooted(t));
    ReducedTidy(s);
    ReducedTidy(t);
    FormStarts(Reduced(s), Rooted(s));
    FormStarts(Reduced(t), Rooted(t));
    SplitIntoWords(t);
    ReduceTwice(Split(t), Rooted(t));
    JoinedReduces(s, t);
    SplitConcat(b, i);
    CleanIsForm(b + "/" + i);
    assert Reduce(Reduced(s), [], rooted) == Reduced(s);
    hide Clean, Split, Join, Form, Reduce;
    if b != "." && i != "." {
      assert (b + "/" + i)[0] == b[0];
    }
  }

  /**
   * Normalising in terms of the requested segments: what is denied and with which error, and what is accepted, for all
   * bases and inputs.
   */
  lemma NormalizeDecided(base: string, input: string)
    ensures var parts, rooted := Requested(base, input), FromRoot(base, input);
            NormalizeRel(base, input) ==
              if TrimSpace(input) == "" then Denied(PathDenied)
              else if Bytes(base) > PATH_MAX_BYTES || Bytes(input) > PATH_MAX_BYTES then Denied(InputTooLarge)
              else if AbsoluteInput(base) || AbsoluteInput(input) then Denied(PathDenied)
              else if parts == [] then Path(".")
              else if Bytes(Form(parts, rooted)) > PATH_MAX_BYTES then Denied(InputTooLarge)
              else if !rooted && parts[0] == ".." then Denied(PathDenied)
              else if |parts| + (if rooted then 1 else 0) > PATH_MAX_SEGMENTS then Denied(InputTooLarge)
              else if exists k :: 0 <= k < |parts| && parts[k] != "" && parts[k][0] == '.' then Denied(PathDenied)
              else Path(Form(parts, rooted))
  {
    var parts, rooted := Requested(base, input), FromRoot(base, input);
    if TrimSpace(input) != "" {
      TakenSomething(input);
      CombinedIsRequested(base, input);
      RequestTidy(base, input);
      FormStarts(parts, rooted);
      FormSplits(parts, rooted);
      FormGoesUp(parts, rooted);
      if parts != [] {
        HiddenParts(parts, rooted);
      }
      hide Clean, Combined, SlashClean, Split, Form, Requested, FromRoot, Bytes, TrimSpace, AnyHidden, Reduce, NormalizeRel, AbsoluteInput, GoesUp;
      if Bytes(base) <= PATH_MAX_BYTES && Bytes(input) <= PATH_MAX_BYTES && !AbsoluteInput(base) && !AbsoluteInput(input) {
        NormalizedFrom(base, input, Form(parts, rooted));
      } else {
        DeniedAtOnce(base, input);
      }
    } else {
      DeniedAtOnce(base, input);
    }
  }

  lemma DeniedAtOnce(base: string, input: string)
    ensures TrimSpace(input) == "" ==> NormalizeRel(base, input) == Denied(PathDenied)
    ensures TrimSpace(input) != "" && (Bytes(base) > PATH_MAX_BYTES || Bytes(input) > PATH_MAX_BYTES) ==> NormalizeRel(base, input) == Denied(InputTooLarge)
    ensures TrimSpace(input) != "" && Bytes(base) <= PATH_MAX_BYTES && Bytes(input) <= PATH_MAX_BYTES && (AbsoluteInput(base) || AbsoluteInput(input)) ==>
              NormalizeRel(base, input) == Denied(PathDenied)
  {
    hide Clean, Combined, SlashClean, Split, Bytes, TrimSpace, AnyHidden, AbsoluteInput;
  }

  /** The checks made on the cleaned path. */
  lemma NormalizedFrom(base: string, input: string, clean: string)
    requires TrimSpace(input) != "" && Bytes(base) <= PATH_MAX_BYTES && Bytes(input) <= PATH_MAX_BYTES && !AbsoluteInput(base) && !AbsoluteInput(input)
    requires Clean(Combined(if SlashClean(base) == "" then "." else SlashClean(base), SlashClean(input))) == clean
    ensures var all := Split(clean);
            NormalizeRel(base, input) ==
              if clean == "/" || clean == "." then Path(".")
              else if Bytes(clean) > PATH_MAX_BYTES then Denied(InputTooLarge)
              else if GoesUp(clean) then Denied(PathDenied)
              else if |all| > PATH_MAX_SEGMENTS then Denied(InputTooLarge)
              else if AnyHidden(all) then Denied(PathDenied)
              else Path(clean)
  {
    hide Clean, Combined, SlashClean, Split, Bytes, TrimSpace, AnyHidden, AbsoluteInput;
  }

  lemma TakenSomething(s: string)
    requires TrimSpace(s) != ""
    ensures Taken(s) != ""
  {
    SlashedSpace(s);
    TrimSpaceEmpty(s);
    TrimSpaceEmpty(Slashed(s));
  }

  lemma {:induction false} SlashedSpace(s: string)
    ensures |Slashed(s)| == |s| && forall k :: 0 <= k < |s| ==> Space(Slashed(s)[k]) == Space(s[k])
  {
    if s != "" {
      SlashedSpace(s[1..]);
    }
  }

  lemma TrimSpaceEmpty(s: string)
    ensures TrimSpace(s) == "" <==> forall k :: 0 <= k < |s| ==> Space(s[k])
  {
    TrimLeftEmpty(s);
    TrimRightEmpty(TrimLeft(s));
    TrimLeftStops(s);
  }

  lemma {:induction false} TrimLeftEmpty(s: string)
    ensures TrimLeft(s) == "" <==> forall k :: 0 <= k < |s| ==> Space(s[k])
  {
    if s != "" && Space(s[0]) {
      TrimLeftEmpty(s[1..]);
    }
  }

  lemma {:induction false} TrimLeftStops(s: string)
    ensures TrimLeft(s) != "" ==> !Space(TrimLeft(s)[0])
  {
    if s != "" && Space(s[0]) {
      TrimLeftStops(s[1..]);
    }
  }

  lemma {:induction false} TrimRightEmpty(s: string)
    ensures TrimRight(s) == "" ==> forall k :: 0 <= k < |s| ==> Space(s[k])
  {
    if s != "" && Space(s[|s| - 1]) {
      TrimRightEmpty(s[..|s| - 1]);
    }
  }

  predicate GoesUp(s: string) {
    s == ".." || (|s| >= 3 && s[..3] == "../")
  }

  lemma GoesUpStarts(s: string)
    ensures GoesUp(s) <==> |s| >= 2 && s[0] == '.' && s[1] == '.' && (|s| == 2 || s[2] == '/')
  {
    if |s| >= 3 {
      assert s[..3] == [s[0], s[1], s[2]];
    } else if |s| == 2 {
      assert s == [s[0], s[1]];
    }
  }

  lemma FormGoesUp(parts: seq<string>, rooted: bool)
    requires Tidy(parts)
    ensures GoesUp(Form(parts, rooted)) <==> !rooted && parts != [] && parts[0] == ".."
  {
    var clean := Form(parts, rooted);
    GoesUpStarts(clean);
    if !rooted && parts != [] {
      var first := parts[0];
      assert first != "" && '/' !in first;
      assert |first| >= 2 && first[0] == '.' && first[1] == '.' && |first| == 2 ==> first == "..";
      if |parts| > 1 {
        assert clean[|first|] == '/' && clean[..|first|] == first;
        assert forall k :: 0 <= k < |first| ==> clean[k] == first[k] && clean[k] in first;
      } else {
        assert clean == first;
        assert forall k :: 0 <= k < |first| ==> first[k] in first;
      }
    }
  }

  lemma HiddenParts(parts: seq<string>, rooted: bool)
    requires Tidy(parts) && parts != []
    ensures var all := (if rooted then [""] else []) + parts;
            AnyHidden(all) <==> exists k :: 0 <= k < |parts| && parts[k] != "" && parts[k][0] == '.'
  {
    var all := (if rooted then [""] else []) + parts;
    if k :| 0 <= k < |parts| && parts[k] != "" && parts[k][0] == '.' {
      var j := if rooted then k + 1 else k;
      assert all[j] == parts[k];
    }
    if j :| 0 <= j < |all| && all[j] != "" && all[j] != "." && Hidden(all[j]) {
      assert all[j] == parts[if rooted then j - 1 else j];
    }
  }

  // ---- what is accepted -------------------------------------------------------------------------

  lemma {:induction false} SlashedNone(s: string)
    ensures '\\' !in Slashed(s)
  {
    if s != "" {
      SlashedNone(s[1..]);
    }
  }

  lemma {:induction false} TrimLeftPart(s: string)
    ensures forall c :: c in TrimLeft(s) ==> c in s
  {
    if s != "" && Space(s[0]) {
      TrimLeftPart(s[1..]);
    }
  }

  lemma {:induction false} TrimRightPartOf(s: string)
    ensures forall c :: c in TrimRight(s) ==> c in s
  {
    if s != "" && Space(s[|s| - 1]) {
      TrimRightPartOf(s[..|s| - 1]);
    }
  }

  lemma {:induction false} SplitPart(s: string, c: char)
    requires c !in s
    ensures forall k :: 0 <= k < |Split(s)| ==> c !in Split(s)[k]
  {
    if s != "" {
      SplitPart(s[1..], c);
    }
  }

  lemma {:induction false} ReducePart(kept: seq<string>, parts: seq<string>, rooted: bool, c: char)
    requires c != '.' && (forall k :: 0 <= k < |kept| ==> c !in kept[k]) && forall k :: 0 <= k < |parts| ==> c !in parts[k]
    ensures forall k :: 0 <= k < |Reduce(kept, parts, rooted)| ==> c !in Reduce(kept, parts, rooted)[k]
    decreases |parts|
  {
    if parts != [] {
      var part, rest := parts[0], parts[1..];
      if part == "" || part == "." {
        ReducePart(kept, rest, rooted, c);
      } else if part == ".." && kept != [] && kept[|kept| - 1] != ".." {
        ReducePart(kept[..|kept| - 1], rest, rooted, c);
      } else if part == ".." && rooted {
        ReducePart(kept, rest, rooted, c);
      } else {
        ReducePart(kept + [part], rest, rooted, c);
      }
    }
  }

  lemma TakenPlain(s: string)
    ensures forall k :: 0 <= k < |Reduced(Taken(s))| ==> '\\' !in Reduced(Taken(s))[k]
  {
    SlashedNone(s);
    TrimLeftPart(Slashed(s));
    TrimRightPartOf(TrimLeft(Slashed(s)));
    SplitPart(Taken(s), '\\');
    ReducePart([], Split(Taken(s)), Rooted(Taken(s)), '\\');
  }

  lemma RequestedPlain(base: string, input: string)
    ensures forall k :: 0 <= k < |Requested(base, input)| ==> '\\' !in Requested(base, input)[k]
  {
    TakenPlain(base);
    TakenPlain(input);
    ReducePart(Reduced(Taken(base)), Reduced(Taken(input)), FromRoot(base, input), '\\');
  }

  lemma FormCanonical(parts: seq<string>, rooted: bool)
    requires Tidy(parts) && Segments(parts) && Bytes(Form(parts, rooted)) <= PATH_MAX_BYTES && |parts| <= PATH_MAX_SEGMENTS
    ensures Canonical(Form(parts, rooted)) <==> !rooted
    ensures !rooted ==> Parts(Form(parts, rooted)) == parts
  {
    FormStarts(parts, rooted);
    FormSplits(parts, rooted);
    hide Form, Split, Bytes;
    if rooted {
      assert Parts(Form(parts, rooted))[0] == "" && !Segment("");
    } else if parts != [] {
      assert [] + parts == parts;
    }
  }

  /**
   * What is accepted is canonical - inside the vault, with no hidden segment and within both limits - if and only if
   * white space has not hidden a leading slash; it then has the requested segments.
   */
  lemma AcceptedIsCanonical(base: string, input: string, p: string)
    requires NormalizeRel(base, input) == Path(p)
    ensures Canonical(p) <==> !FromRoot(base, input) || Requested(base, input) == []
    ensures Canonical(p) ==> Parts(p) == Requested(base, input)
    ensures Segments(Requested(base, input))
  {
    var parts, rooted := Requested(base, input), FromRoot(base, input);
    NormalizeDecided(base, input);
    RequestTidy(base, input);
    RequestedPlain(base, input);
    hide NormalizeRel, Requested, FromRoot, Form, Split, Bytes, Reduce, Canonical, TrimSpace, AbsoluteInput;
    assert Segments(parts);
    if parts == [] {
      assert p == "." && Canonical(".") by {
        SmallPaths();
        RootCanonical();
      }
    } else {
      FormCanonical(parts, rooted);
    }
  }

  lemma RootCanonical()
    requires Bytes(".") == 1
    ensures Canonical(".")
  {
    hide Bytes;
  }

  lemma SpacedSlash()
    ensures Taken(" /b") == "/b" && TrimSpace(" /b") == "/b" && Taken(".") == "." && Bytes(" /b") == 3 && Bytes(".") == 1
    ensures !AbsoluteInput(" /b") && !AbsoluteInput(".")
  {
    SlashedKeeps(" /b");
    SlashedKeeps(".");
    assert " /b"[1..] == "/b" && TrimLeft(" /b") == TrimLeft("/b") == "/b";
    assert "/b"[1..] == "b" && "b"[1..] == "" && Bytes("b") == 1 && Bytes("/b") == 2;
  }

  lemma SpacedSegments()
    ensures Reduced("/b") == ["b"] && Reduced(".") == [] && Form(["b"], true) == "/b"
  {
    SplitWord("b");
    SplitWord(".");
    SplitConcat("", "b");
    SplitWord("");
    assert "" + "/" + "b" == "/b" && [""] + ["b"] == ["", "b"];
    assert Reduce([], ["."], false) == Reduce([], [], false) == [];
    assert ["", "b"][1..] == ["b"] && ["b"][1..] == [];
    assert Reduce([], ["", "b"], true) == Reduce([], ["b"], true) == Reduce(["b"], [], true) == ["b"];
  }

  /** White space in front of a slash is all it takes: such an input is not denied, and its path begins with the slash. */
  lemma SpacedSlashIsKept()
    ensures NormalizeRel(".", " /b") == Path("/b") && !Canonical("/b")
  {
    SpacedSlash();
    SpacedSegments();
    var parts := Requested(".", " /b");
    assert parts == ["b"] && FromRoot(".", " /b") by {
      assert Reduce([], ["b"], true) == Reduce(["b"], [], true) == ["b"];
    }
    assert Bytes("/b") == 2 by {
      assert "/b"[1..] == "b" && "b"[1..] == "";
      assert Bytes("b") == 1;
    }
    NormalizeDecided(".", " /b");
    assert "b"[0] == 'b';
    hide NormalizeRel, Requested, FromRoot, Form, Split, Bytes, Reduce, TrimSpace, AbsoluteInput, Canonical;
    assert NormalizeRel(".", " /b") == Path("/b");
    AcceptedIsCanonical(".", " /b", "/b");
  }
}
