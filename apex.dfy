/** The group-label helpers of the Apex timetable client (apex_parser.py): joining a path to
    the base URL, tidying a group label the user typed, and finding the group's id in the
    label -> id table read from the site. */
module Apex {
  import opened Strings

  /** `base_url.rstrip("/")`: the base URL without its trailing slashes. */
  function RStripSlash(s: string): (r: string)
    ensures |r| <= |s| && s[..|r|] == r
    ensures forall i :: |r| <= i < |s| ==> s[i] == '/'
    ensures r != [] ==> r[|r| - 1] != '/'
    decreases |s|
  {
    if s != [] && s[|s| - 1] == '/' then RStripSlash(s[..|s| - 1]) else s
  }

  lemma RStripSlashIdempotent(s: string)
    ensures RStripSlash(RStripSlash(s)) == RStripSlash(s)
  {
  }

  predicate IsAbsolute(path: string) {
    StartsWith(path, "http://") || StartsWith(path, "https://")
  }

  /** `_full_url`: absolute URLs are kept; any other path gets a leading '/' when it has none
      and is put after the (slash-stripped) base URL. */
  function FullUrl(baseUrl: string, path: string): (r: string)
    ensures IsAbsolute(path) ==> r == path
    ensures !IsAbsolute(path) && StartsWith(path, "/") ==> r == RStripSlash(baseUrl) + path
    ensures !IsAbsolute(path) && !StartsWith(path, "/") ==> r == RStripSlash(baseUrl) + "/" + path
  {
    if IsAbsolute(path) then path
    else
      var p := if StartsWith(path, "/") then path else "/" + path;
      RStripSlash(baseUrl) + p
  }

  lemma StartsWithConcat(a: string, b: string, prefix: string)
    requires StartsWith(a, prefix)
    ensures StartsWith(a + b, prefix)
  {
    assert (a + b)[..|prefix|] == a[..|prefix|];
  }

  /** A relative path never produces a doubled slash at the seam, and the path is kept whole. */
  lemma FullUrlSeam(baseUrl: string, path: string)
    requires !IsAbsolute(path) && RStripSlash(baseUrl) != []
    ensures var b := RStripSlash(baseUrl);
            var r := FullUrl(baseUrl, path);
            |r| > |b| && r[..|b|] == b && r[|b|] == '/' && r[|b| - 1] != '/'
            && (r[|b|..] == path || r[|b| + 1..] == path)
  {
    var b := RStripSlash(baseUrl);
    var r := FullUrl(baseUrl, path);
    if StartsWith(path, "/") {
      assert r == b + path;
      assert r[|b|] == path[0];
    } else {
      assert r == b + ("/" + path);
    }
  }

  /** With an absolute base, a computed URL is absolute, so joining it again changes nothing. */
  lemma FullUrlStable(baseUrl: string, path: string)
    requires IsAbsolute(RStripSlash(baseUrl))
    ensures FullUrl(baseUrl, FullUrl(baseUrl, path)) == FullUrl(baseUrl, path)
  {
    var b := RStripSlash(baseUrl);
    if !IsAbsolute(path) {
      var p := if StartsWith(path, "/") then path else "/" + path;
      if StartsWith(b, "http://") { StartsWithConcat(b, p, "http://"); }
      else { StartsWithConcat(b, p, "https://"); }
    }
  }

  /** The regular expression `\s*-\s*` matches at the start of s: a run of whitespace (maybe
      empty) ends in a hyphen. */
  predicate HyphenAhead(s: string) {
    LeadingSpaces(s) < |s| && s[LeadingSpaces(s)] == '-'
  }

  function DropSpaces(s: string): (r: string)
    ensures |r| <= |s| && r == s[|s| - |r|..]
    ensures r != [] ==> !IsSpace(r[0])
  {
    s[LeadingSpaces(s)..]
  }

  /** `re.sub(r"\s*-\s*", "-", s)`: scanning from the left, every hyphen together with the
      whitespace around it becomes a bare hyphen. */
  function Collapse(s: string): (r: string)
    ensures r == [] <==> s == []
    ensures r != [] ==> (r[0] == '-' <==> HyphenAhead(s))
    ensures r != [] && !HyphenAhead(s) ==> r[0] == s[0]
    ensures r != [] ==> r[|r| - 1] == '-' || r[|r| - 1] == s[|s| - 1]
    decreases |s|
  {
    if s == [] then []
    else if HyphenAhead(s) then
      var n := LeadingSpaces(s);
      "-" + Collapse(DropSpaces(s[n + 1..]))
    else
      [s[0]] + Collapse(s[1..])
  }

  /** No whitespace stands next to a hyphen. */
  predicate Tight(s: string) {
    forall i :: 0 <= i < |s| && s[i] == '-' ==>
      (i == 0 || !IsSpace(s[i - 1])) && (i + 1 == |s| || !IsSpace(s[i + 1]))
  }

  /** `_normalize_group_label`. */
  function NormalizeGroupLabel(groupLabel: string): (r: string)
    ensures r == [] <==> Strip(groupLabel) == []
  {
    if groupLabel == [] then [] else Collapse(Strip(groupLabel))
  }

  lemma {:induction false} CollapseTight(s: string)
    ensures Tight(Collapse(s))
    decreases |s|
  {
    if s != [] {
      if HyphenAhead(s) {
        var n := LeadingSpaces(s);
        var u := DropSpaces(s[n + 1..]);
        CollapseTight(u);
        HyphenThenTight(Collapse(u));
      } else {
        CollapseTight(s[1..]);
        if IsSpace(s[0]) && s[1..] != [] {
          assert LeadingSpaces(s) == 1 + LeadingSpaces(s[1..]);
        }
        CharThenTight(s[0], Collapse(s[1..]));
      }
    }
  }

  lemma HyphenThenTight(c: string)
    requires Tight(c) && (c != [] ==> !IsSpace(c[0]))
    ensures Tight("-" + c)
  {
    var r := "-" + c;
    forall i | 0 <= i < |r| && r[i] == '-'
      ensures (i == 0 || !IsSpace(r[i - 1])) && (i + 1 == |r| || !IsSpace(r[i + 1]))
    {
      if i > 0 { assert r[i] == c[i - 1]; }
      if i + 1 < |r| { assert r[i + 1] == c[i]; }
    }
  }

  lemma CharThenTight(x: char, c: string)
    requires Tight(c) && x != '-' && (IsSpace(x) && c != [] ==> c[0] != '-')
    ensures Tight([x] + c)
  {
    var r := [x] + c;
    forall i | 0 <= i < |r| && r[i] == '-'
      ensures (i == 0 || !IsSpace(r[i - 1])) && (i + 1 == |r| || !IsSpace(r[i + 1]))
    {
      assert r[i] == c[i - 1];
      if i + 1 < |r| { assert r[i + 1] == c[i]; }
    }
  }

  lemma {:induction false} CollapseOfTight(s: string)
    requires Tight(s)
    ensures Collapse(s) == s
    decreases |s|
  {
    if s != [] {
      var t := s[1..];
      TightTail(s);
      CollapseOfTight(t);
      if HyphenAhead(s) {
        TightHyphenAhead(s);
        assert DropSpaces(t) == t;
      }
      assert s == [s[0]] + t;
    }
  }

  lemma TightTail(s: string)
    requires Tight(s) && s != []
    ensures Tight(s[1..])
  {
    var t := s[1..];
    forall i | 0 <= i < |t| && t[i] == '-'
      ensures (i == 0 || !IsSpace(t[i - 1])) && (i + 1 == |t| || !IsSpace(t[i + 1]))
    {
      assert s[i + 1] == '-';
    }
  }

  /** In a tight string the pattern can only match at a hyphen with no space after it. */
  lemma TightHyphenAhead(s: string)
    requires Tight(s) && HyphenAhead(s)
    ensures s[0] == '-' && LeadingSpaces(s[1..]) == 0
  {
    var n := LeadingSpaces(s);
    TightAt(s, n);
    if 1 < |s| { assert !IsSpace(s[1]); }
  }

  lemma TightAt(s: string, i: nat)
    requires Tight(s) && i < |s| && s[i] == '-'
    ensures i == 0 || !IsSpace(s[i - 1])
  {
  }

  /** The label comes out stripped and with no whitespace next to a hyphen. */
  lemma NormalizeTidy(groupLabel: string)
    ensures Tight(NormalizeGroupLabel(groupLabel))
    ensures Strip(NormalizeGroupLabel(groupLabel)) == NormalizeGroupLabel(groupLabel)
  {
    if groupLabel != [] {
      var t := Strip(groupLabel);
      CollapseTight(t);
      StripOfTrimmed(Collapse(t));
    }
  }

  /** Normalising twice is normalising once. */
  lemma NormalizeIdempotent(groupLabel: string)
    ensures NormalizeGroupLabel(NormalizeGroupLabel(groupLabel)) == NormalizeGroupLabel(groupLabel)
  {
    var r := NormalizeGroupLabel(groupLabel);
    NormalizeTidy(groupLabel);
    if r != [] {
      CollapseOfTight(r);
    }
  }

  /** A groupLabel already written the way Apex writes it is left as it is. */
  lemma NormalizeKeepsTidyLabel(groupLabel: string)
    requires Tight(groupLabel) && Strip(groupLabel) == groupLabel
    ensures NormalizeGroupLabel(groupLabel) == groupLabel
  {
    if groupLabel != [] { CollapseOfTight(groupLabel); }
  }

  /** The characters of s other than whitespace, in order. */
  function NonSpace(s: string): (r: string)
    ensures |r| <= |s|
  {
    if s == [] then [] else (if IsSpace(s[0]) then [] else [s[0]]) + NonSpace(s[1..])
  }

  lemma {:induction false} NonSpaceOfSpaces(s: string, n: nat)
    requires n <= |s| && forall i :: 0 <= i < n ==> IsSpace(s[i])
    ensures NonSpace(s) == NonSpace(s[n..])
    decreases n
  {
    if n > 0 { NonSpaceOfSpaces(s[1..], n - 1); assert s[1..][n - 1..] == s[n..]; }
  }

  /** Only whitespace is removed: every other character survives, in order. */
  lemma {:induction false} CollapseKeepsNonSpace(s: string)
    ensures NonSpace(Collapse(s)) == NonSpace(s)
    decreases |s|
  {
    if s != [] {
      if HyphenAhead(s) {
        var u := DropSpaces(s[LeadingSpaces(s) + 1..]);
        CollapseKeepsNonSpace(u);
        CollapseHyphenStep(s);
      } else {
        CollapseKeepsNonSpace(s[1..]);
        CollapseCharStep(s);
      }
    }
  }

  /** The hyphen step of CollapseKeepsNonSpace, given the claim for what follows. */
  lemma CollapseHyphenStep(s: string)
    requires HyphenAhead(s)
    requires var u := DropSpaces(s[LeadingSpaces(s) + 1..]); NonSpace(Collapse(u)) == NonSpace(u)
    ensures NonSpace(Collapse(s)) == NonSpace(s)
  {
    var n := LeadingSpaces(s);
    var t := s[n + 1..];
    var u := DropSpaces(t);
    NonSpaceDropSpaces(t);
    NonSpaceCons('-', Collapse(u), t);
    NonSpaceHyphenAhead(s);
  }

  lemma NonSpaceDropSpaces(t: string)
    ensures NonSpace(DropSpaces(t)) == NonSpace(t)
  {
    NonSpaceOfSpaces(t, LeadingSpaces(t));
  }

  lemma NonSpaceHyphenAhead(s: string)
    requires HyphenAhead(s)
    ensures NonSpace(s) == NonSpace(['-'] + s[LeadingSpaces(s) + 1..])
  {
    var n := LeadingSpaces(s);
    NonSpaceOfSpaces(s, n);
    assert s[n..] == ['-'] + s[n + 1..];
  }

  /** The plain-character step of CollapseKeepsNonSpace, given the claim for the tail. */
  lemma CollapseCharStep(s: string)
    requires s != [] && !HyphenAhead(s)
    requires NonSpace(Collapse(s[1..])) == NonSpace(s[1..])
    ensures NonSpace(Collapse(s)) == NonSpace(s)
  {
    assert s == [s[0]] + s[1..];
    NonSpaceCons(s[0], Collapse(s[1..]), s[1..]);
  }

  lemma NonSpaceCons(x: char, a: string, b: string)
    requires NonSpace(a) == NonSpace(b)
    ensures NonSpace([x] + a) == NonSpace([x] + b)
  {
    assert ([x] + a)[1..] == a;
    assert ([x] + b)[1..] == b;
  }

  /** A groupLabel without a hyphen is only stripped. */
  lemma {:induction false} CollapseWithoutHyphen(s: string)
    requires '-' !in s
    ensures Collapse(s) == s
    decreases |s|
  {
    if s != [] {
      assert '-' !in s[1..];
      CollapseWithoutHyphen(s[1..]);
      assert s == [s[0]] + s[1..];
    }
  }

  /** A character the pattern cannot take into a match: neither whitespace nor a hyphen. */
  predicate Plain(c: char) {
    !IsSpace(c) && c != '-'
  }

  /** The whitespace run at the front of a + t lies inside a when a ends in a non-space. */
  lemma {:induction false} LeadingSpacesConcat(a: string, t: string)
    requires a != [] && !IsSpace(a[|a| - 1])
    ensures LeadingSpaces(a + t) == LeadingSpaces(a) < |a|
    decreases |a|
  {
    if IsSpace(a[0]) {
      assert (a + t)[1..] == a[1..] + t;
      LeadingSpacesConcat(a[1..], t);
    }
  }

  /** A whitespace run followed by a non-space, or by nothing, is the whole leading run. */
  lemma {:induction false} LeadingSpacesOfRun(w: string, b: string)
    requires forall i :: 0 <= i < |w| ==> IsSpace(w[i])
    requires b != [] ==> !IsSpace(b[0])
    ensures LeadingSpaces(w + b) == |w|
    decreases |w|
  {
    if w == [] {
      assert w + b == b;
    } else {
      assert (w + b)[1..] == w[1..] + b;
      LeadingSpacesOfRun(w[1..], b);
    }
  }

  /** No match of the pattern runs across the end of a string that ends in a plain character,
      so the rewrite handles such a prefix on its own. */
  lemma {:induction false} CollapseConcat(a: string, t: string)
    requires a == [] || Plain(a[|a| - 1])
    ensures Collapse(a + t) == Collapse(a) + Collapse(t)
    decreases |a|
  {
    if a == [] {
      assert a + t == t;
    } else if HyphenAhead(a) {
      var u := DropSpaces(a[LeadingSpaces(a) + 1..]);
      HyphenRest(a);
      CollapseConcat(u, t);
      CollapseConcatHyphen(a, t);
    } else {
      CollapseConcat(a[1..], t);
      CollapseConcatChar(a, t);
    }
  }

  /** After a match inside a, the rest of a still ends in a's last character. */
  lemma HyphenRest(a: string)
    requires a != [] && Plain(a[|a| - 1]) && HyphenAhead(a)
    ensures var u := DropSpaces(a[LeadingSpaces(a) + 1..]);
      u != [] && |u| < |a| && u[|u| - 1] == a[|a| - 1]
  {
    var n := LeadingSpaces(a);
    var rest := a[n + 1..];
    assert a[n] != a[|a| - 1];
    assert |rest| == |a| - n - 1 > 0;
    assert rest[|rest| - 1] == a[|a| - 1];
  }

  /** The hyphen step of CollapseConcat, given the claim for what follows the match. */
  lemma CollapseConcatHyphen(a: string, t: string)
    requires a != [] && Plain(a[|a| - 1]) && HyphenAhead(a)
    requires var u := DropSpaces(a[LeadingSpaces(a) + 1..]);
      (u == [] || Plain(u[|u| - 1])) && Collapse(u + t) == Collapse(u) + Collapse(t)
    ensures Collapse(a + t) == Collapse(a) + Collapse(t)
  {
    var s := a + t;
    var n := LeadingSpaces(a);
    var rest := a[n + 1..];
    var u := DropSpaces(rest);
    LeadingSpacesConcat(a, t);
    assert s[n] == a[n];
    DropOfConcat(a, t, n + 1);
    assert a[n] != a[|a| - 1];
    assert |rest| == |a| - n - 1 > 0;
    assert rest[|rest| - 1] == a[|a| - 1];
    DropSpacesConcat(rest, t);
    assert Collapse(s) == "-" + Collapse(u + t);
    assert Collapse(a) == "-" + Collapse(u);
    ConcatAssoc("-", Collapse(u), Collapse(t));
  }

  /** The plain-character step of CollapseConcat, given the claim for the tail. */
  lemma CollapseConcatChar(a: string, t: string)
    requires a != [] && Plain(a[|a| - 1]) && !HyphenAhead(a)
    requires Collapse(a[1..] + t) == Collapse(a[1..]) + Collapse(t)
    ensures Collapse(a + t) == Collapse(a) + Collapse(t)
  {
    var s := a + t;
    LeadingSpacesConcat(a, t);
    assert s[LeadingSpaces(a)] == a[LeadingSpaces(a)];
    assert !HyphenAhead(s);
    TailOfConcat(a, t);
    assert Collapse(s) == [a[0]] + Collapse(a[1..] + t);
    assert Collapse(a) == [a[0]] + Collapse(a[1..]);
    ConcatAssoc([a[0]], Collapse(a[1..]), Collapse(t));
  }

  lemma ConcatAssoc(x: string, y: string, z: string)
    ensures x + (y + z) == (x + y) + z
  {
  }

  lemma TailOfConcat(a: string, t: string)
    requires a != []
    ensures (a + t)[1..] == a[1..] + t
  {
  }

  lemma DropOfConcat(a: string, t: string, k: nat)
    requires k <= |a|
    ensures (a + t)[k..] == a[k..] + t
  {
  }

  lemma DropSpacesConcat(a: string, t: string)
    requires a != [] && !IsSpace(a[|a| - 1])
    ensures DropSpaces(a + t) == DropSpaces(a) + t
  {
    LeadingSpacesConcat(a, t);
    DropOfConcat(a, t, LeadingSpaces(a));
  }

  /** Whitespace in front of a plain character, or at the very end, is no part of a match. */
  lemma {:induction false} CollapseSpacesBefore(w: string, b: string)
    requires forall i :: 0 <= i < |w| ==> IsSpace(w[i])
    requires b == [] || Plain(b[0])
    ensures Collapse(w + b) == w + Collapse(b)
    decreases |w|
  {
    if w == [] {
      assert w + b == b;
    } else {
      CollapseSpacesBefore(w[1..], b);
      CollapseSpaceStep(w, b);
    }
  }

  /** The step of CollapseSpacesBefore, given the claim for the rest of the run. */
  lemma CollapseSpaceStep(w: string, b: string)
    requires w != [] && forall i :: 0 <= i < |w| ==> IsSpace(w[i])
    requires b == [] || Plain(b[0])
    requires Collapse(w[1..] + b) == w[1..] + Collapse(b)
    ensures Collapse(w + b) == w + Collapse(b)
  {
    var s := w + b;
    LeadingSpacesOfRun(w, b);
    if |w| < |s| { assert s[|w|] == b[0]; }
    assert !HyphenAhead(s);
    TailOfConcat(w, b);
    assert s[0] == w[0];
    assert Collapse(s) == [w[0]] + (w[1..] + Collapse(b));
    ConcatAssoc([w[0]], w[1..], Collapse(b));
    assert [w[0]] + w[1..] == w;
  }

  /** Whitespace with no hyphen on either side survives the rewrite unchanged, and the text
      on either side of it is rewritten on its own. */
  lemma CollapseKeepsInnerSpace(a: string, w: string, b: string)
    requires a == [] || Plain(a[|a| - 1])
    requires forall i :: 0 <= i < |w| ==> IsSpace(w[i])
    requires b == [] || Plain(b[0])
    ensures Collapse(a + w + b) == Collapse(a) + w + Collapse(b)
  {
    ConcatAssoc(a, w, b);
    CollapseConcat(a, w + b);
    CollapseSpacesBefore(w, b);
    ConcatAssoc(Collapse(a), w, Collapse(b));
  }

  /** Inside a label, whitespace away from every hyphen is kept as typed: "Ио 6 -23" keeps the
      space after "Ио". */
  lemma NormalizeKeepsInnerSpace(groupLabel: string, a: string, w: string, b: string)
    requires Strip(groupLabel) == a + w + b
    requires a != [] && Plain(a[|a| - 1])
    requires forall i :: 0 <= i < |w| ==> IsSpace(w[i])
    requires b != [] && Plain(b[0])
    ensures NormalizeGroupLabel(groupLabel) == NormalizeGroupLabel(a) + w + NormalizeGroupLabel(b)
  {
    var t := Strip(groupLabel);
    assert t[0] == a[0] && t[|t| - 1] == b[|b| - 1];
    StripOfTrimmed(a);
    StripOfTrimmed(b);
    CollapseKeepsInnerSpace(a, w, b);
  }

  /** The label of the example above: only the space next to the hyphen goes. */
  lemma NormalizeExample()
    ensures NormalizeGroupLabel("Ио 6 -23") == "Ио 6-23"
  {
    assert "Ио 6 -23" == "Ио" + " " + "6 -23";
    assert "Ио" + " " + "6-23" == "Ио 6-23";
    StripOfTrimmed("Ио 6 -23");
    CollapseKeepsInnerSpace("Ио", " ", "6 -23");
    ExampleWord();
    ExampleTail();
  }

  lemma ExampleWord()
    ensures Collapse("Ио") == "Ио"
  {
    assert "Ио"[0] != '-' && "Ио"[1] != '-';
    CollapseWithoutHyphen("Ио");
  }

  lemma ExampleTail()
    ensures Collapse("6 -23") == "6-23"
  {
    assert "6 -23" == "6" + " -23";
    assert " -23" == " " + "-23";
    assert " -23"[2..] == "23";
    assert "-" + "23" == "-23";
    assert "6" + "-23" == "6-23";
    assert "23"[0] != '-' && "23"[1] != '-';
    assert Plain("6"[0]);
    CollapseWithoutHyphen("23");
    CollapseWithoutHyphen("6");
    assert LeadingSpaces("23") == 0;
    LeadingSpacesOfRun(" ", "-23");
    CollapseConcat("6", " -23");
  }

  /** A dict with string keys, as a list of its items in insertion order. */
  predicate DistinctKeys(groups: seq<(string, int)>) {
    forall i, j :: 0 <= i < j < |groups| ==> groups[i].0 != groups[j].0
  }

  /** `groups[key]` for `key in groups`. */
  function Lookup(groups: seq<(string, int)>, key: string): (r: Option<int>)
    ensures r.None? <==> forall i :: 0 <= i < |groups| ==> groups[i].0 != key
    ensures r.Some? ==> (key, r.value) in groups
  {
    if groups == [] then None
    else if groups[0].0 == key then Some(groups[0].1)
    else Lookup(groups[1..], key)
  }

  /** The value of the first item whose key, lower-cased, equals `lower`. */
  function FirstCaseless(groups: seq<(string, int)>, lower: string): (r: Option<int>)
    ensures r.None? <==> forall i :: 0 <= i < |groups| ==> Lower(groups[i].0) != lower
  {
    if groups == [] then None
    else if Lower(groups[0].0) == lower then Some(groups[0].1)
    else FirstCaseless(groups[1..], lower)
  }

  /** `_find_group_id` as a value: the exact key first, then the first key equal ignoring
      case; an empty groupLabel finds nothing. */
  function FindGroup(groupLabel: string, groups: seq<(string, int)>): (r: Option<int>)
    ensures NormalizeGroupLabel(groupLabel) == [] ==> r.None?
    ensures r.None? <==> (NormalizeGroupLabel(groupLabel) == []
              || forall i :: 0 <= i < |groups| ==> Lower(groups[i].0) != Lower(NormalizeGroupLabel(groupLabel)))
  {
    var n := NormalizeGroupLabel(groupLabel);
    if n == [] then None
    else match Lookup(groups, n)
      case Some(v) => Some(v)
      case None => FirstCaseless(groups, Lower(n))
  }

  /** When the normalised groupLabel is a key, its own id is returned. */
  lemma FindGroupExact(groupLabel: string, groups: seq<(string, int)>, i: nat)
    requires DistinctKeys(groups) && i < |groups| && NormalizeGroupLabel(groupLabel) != []
    requires groups[i].0 == NormalizeGroupLabel(groupLabel)
    ensures FindGroup(groupLabel, groups) == Some(groups[i].1)
  {
    var n := NormalizeGroupLabel(groupLabel);
    var v := Lookup(groups, n).value;
    var j :| 0 <= j < |groups| && groups[j] == (n, v);
  }

  lemma {:induction false} FirstCaselessAt(groups: seq<(string, int)>, lower: string, i: nat)
    requires i < |groups| && Lower(groups[i].0) == lower
    requires forall j :: 0 <= j < i ==> Lower(groups[j].0) != lower
    ensures FirstCaseless(groups, lower) == Some(groups[i].1)
    decreases i
  {
    if i > 0 { FirstCaselessAt(groups[1..], lower, i - 1); }
  }

  /** With no exact key, the first key (in table order) that matches ignoring case wins. */
  lemma FindGroupCaseless(groupLabel: string, groups: seq<(string, int)>, i: nat)
    requires i < |groups| && NormalizeGroupLabel(groupLabel) != []
    requires forall j :: 0 <= j < |groups| ==> groups[j].0 != NormalizeGroupLabel(groupLabel)
    requires Lower(groups[i].0) == Lower(NormalizeGroupLabel(groupLabel))
    requires forall j :: 0 <= j < i ==> Lower(groups[j].0) != Lower(NormalizeGroupLabel(groupLabel))
    ensures FindGroup(groupLabel, groups) == Some(groups[i].1)
  {
    FirstCaselessAt(groups, Lower(NormalizeGroupLabel(groupLabel)), i);
  }

  /** `_find_group_id`: the dict lookup, then the loop over the items. */
  method FindGroupId(groupLabel: string, groups: seq<(string, int)>) returns (r: Option<int>)
    ensures r == FindGroup(groupLabel, groups)
  {
    var labelNorm := NormalizeGroupLabel(groupLabel);
    if labelNorm == [] {
      return None;
    }
    var exact := Lookup(groups, labelNorm);
    if exact.Some? {
      return exact;
    }
    var lower := Lower(labelNorm);
    var i := 0;
    while i < |groups|
      invariant 0 <= i <= |groups|
      invariant FirstCaseless(groups, lower) == FirstCaseless(groups[i..], lower)
    {
      if Lower(groups[i].0) == lower {
        return Some(groups[i].1);
      }
      assert groups[i..][1..] == groups[i + 1..];
      i := i + 1;
    }
    return None;
  }
}
