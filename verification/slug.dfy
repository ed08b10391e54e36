/** `createSlug` of the blog API: lower-case, turn every maximal run of
    characters outside `[a-z0-9]` into one `-`, then drop a leading and a
    trailing `-`. The reference meaning is `Join(Words(...))`: the maximal
    runs of `[a-z0-9]`, in order, separated by single dashes. */
module Slug {
  import opened Text

  /** `.replace(/[^a-z0-9]+/g, '-')`, read left to right: a character outside
      `[a-z0-9]` adds a dash unless the output already ends in one. */
  function Collapse(s: string): (r: string)
    ensures (|r| > 0 && r[|r| - 1] == '-') <==> (|s| > 0 && !IsLowerAlnum(s[|s| - 1]))
    decreases |s|
  {
    if |s| == 0 then ""
    else
      var c := s[|s| - 1];
      var prev := Collapse(s[..|s| - 1]);
      if IsLowerAlnum(c) then prev + [c]
      else if |prev| > 0 && prev[|prev| - 1] == '-' then prev
      else prev + "-"
  }

  /** `.replace(/(^-|-$)+/g, '')` on a collapsed string: at most one dash at
      either end. */
  function StripDashes(s: string): string {
    var a := if |s| > 0 && s[0] == '-' then s[1..] else s;
    if |a| > 0 && a[|a| - 1] == '-' then a[..|a| - 1] else a
  }

  /** `createSlug(title)`, with ASCII-only lower-casing. */
  function CreateSlug(title: string): string {
    StripDashes(Collapse(LowerAscii(title)))
  }

  // ---- reference definition ----

  predicate AllAlnum(w: string) {
    forall i :: 0 <= i < |w| ==> IsLowerAlnum(w[i])
  }

  predicate HasAlnum(s: string) {
    exists i :: 0 <= i < |s| && IsLowerAlnum(s[i])
  }

  /** Well-formed words: non-empty runs of `[a-z0-9]`. */
  predicate WordsOk(ws: seq<string>) {
    forall k :: 0 <= k < |ws| ==> |ws[k]| > 0 && AllAlnum(ws[k])
  }

  /** The maximal runs of `[a-z0-9]` in `s`, in order. */
  function Words(s: string): (ws: seq<string>)
    ensures WordsOk(ws)
    ensures |s| > 0 && IsLowerAlnum(s[|s| - 1]) ==> |ws| > 0
    decreases |s|
  {
    if |s| == 0 then []
    else
      var c := s[|s| - 1];
      var init := s[..|s| - 1];
      var ws := Words(init);
      if !IsLowerAlnum(c) then ws
      else if |init| > 0 && IsLowerAlnum(init[|init| - 1]) then ws[..|ws| - 1] + [ws[|ws| - 1] + [c]]
      else ws + [[c]]
  }

  /** There are no words exactly when there is no `[a-z0-9]` character. */
  lemma {:induction false} WordsEmptyIff(s: string)
    ensures |Words(s)| == 0 <==> !HasAlnum(s)
    decreases |s|
  {
    if |s| > 0 {
      var init := s[..|s| - 1];
      WordsEmptyIff(init);
      if HasAlnum(init) {
        var i :| 0 <= i < |init| && IsLowerAlnum(init[i]);
        assert s[i] == init[i];
      }
      if !IsLowerAlnum(s[|s| - 1]) && HasAlnum(s) {
        var i :| 0 <= i < |s| && IsLowerAlnum(s[i]);
        assert i < |init| && init[i] == s[i];
      }
    }
  }

  /** Words separated by single dashes. */
  function Join(ws: seq<string>): string
    decreases |ws|
  {
    if |ws| == 0 then ""
    else if |ws| == 1 then ws[0]
    else Join(ws[..|ws| - 1]) + "-" + ws[|ws| - 1]
  }

  /** A slug: only `[a-z0-9-]`, no dash at either end, no two dashes in a row. */
  predicate IsSlug(s: string) {
    (forall i :: 0 <= i < |s| ==> IsLowerAlnum(s[i]) || s[i] == '-')
    && (|s| > 0 ==> s[0] != '-' && s[|s| - 1] != '-')
    && (forall i :: 0 <= i < |s| - 1 ==> !(s[i] == '-' && s[i + 1] == '-'))
  }

  // ---- lemmas ----

  /** Joining well-formed words gives a slug; it starts and ends with a word character. */
  lemma {:induction false} JoinIsSlug(ws: seq<string>)
    requires WordsOk(ws)
    ensures IsSlug(Join(ws))
    ensures |Join(ws)| == 0 <==> |ws| == 0
    ensures |ws| > 0 ==> IsLowerAlnum(Join(ws)[0]) && IsLowerAlnum(Join(ws)[|Join(ws)| - 1])
    decreases |ws|
  {
    if |ws| > 1 {
      var init := ws[..|ws| - 1];
      var w := ws[|ws| - 1];
      JoinIsSlug(init);
      var a := Join(init);
      var j := a + "-" + w;
      assert Join(ws) == j;
      forall i | 0 <= i < |j| - 1 ensures !(j[i] == '-' && j[i + 1] == '-') {
        if i < |a| - 1 {
          assert j[i] == a[i] && j[i + 1] == a[i + 1];
        } else if i == |a| - 1 {
          assert j[i] == a[|a| - 1];
        } else if i == |a| {
          assert j[i + 1] == w[0];
        } else {
          assert j[i] == w[i - |a| - 1];
        }
      }
      forall i | 0 <= i < |j| ensures IsLowerAlnum(j[i]) || j[i] == '-' {
        if i < |a| { assert j[i] == a[i]; } else if i > |a| { assert j[i] == w[i - |a| - 1]; }
      }
      assert j[0] == a[0];
      assert j[|j| - 1] == w[|w| - 1];
    }
  }

  /** The leading dash of a collapsed string: present iff `s` starts outside `[a-z0-9]`. */
  function Lead(s: string): string {
    if |s| > 0 && !IsLowerAlnum(s[0]) then "-" else ""
  }

  /** The trailing dash of a collapsed string: present iff `s` has a word and
      ends outside `[a-z0-9]`. */
  function Trail(s: string): string {
    if |s| > 0 && !IsLowerAlnum(s[|s| - 1]) && |Words(s)| > 0 then "-" else ""
  }

  lemma JoinExtendLast(ws: seq<string>, c: char)
    requires |ws| > 0
    ensures Join(ws[..|ws| - 1] + [ws[|ws| - 1] + [c]]) == Join(ws) + [c]
  {
    var ws' := ws[..|ws| - 1] + [ws[|ws| - 1] + [c]];
    if |ws| > 1 {
      assert ws'[..|ws'| - 1] == ws[..|ws| - 1];
    }
  }

  lemma JoinAppend(ws: seq<string>, w: string)
    requires |ws| > 0
    ensures Join(ws + [w]) == Join(ws) + "-" + w
  {
    assert (ws + [w])[..|ws|] == ws;
  }

  /** The collapsed string is the joined words with the boundary dashes. */
  lemma {:induction false} CollapseIsJoin(s: string)
    ensures Collapse(s) == Lead(s) + Join(Words(s)) + Trail(s)
    decreases |s|
  {
    if |s| > 0 {
      var init := s[..|s| - 1];
      var c := s[|s| - 1];
      CollapseIsJoin(init);
      var ws := Words(init);
      assert |init| > 0 ==> init[0] == s[0];
      if IsLowerAlnum(c) {
        CollapseAlnumStep(s);
      } else {
        CollapseSepStep(s);
      }
    }
  }

  /** The step of `CollapseIsJoin` for a final character outside `[a-z0-9]`:
      it adds the trailing dash unless the collapsed prefix already ends in one. */
  lemma CollapseSepStep(s: string)
    requires |s| > 0 && !IsLowerAlnum(s[|s| - 1])
    requires Collapse(s[..|s| - 1]) == Lead(s[..|s| - 1]) + Join(Words(s[..|s| - 1])) + Trail(s[..|s| - 1])
    ensures Collapse(s) == Lead(s) + Join(Words(s)) + Trail(s)
  {
    var init := s[..|s| - 1];
    if |init| == 0 {
      LoneSepStep(s);
    } else if |Words(init)| == 0 {
      SepWithoutWordStep(s);
    } else if IsLowerAlnum(init[|init| - 1]) {
      SepAfterWordStep(s);
    } else {
      SepAfterSepStep(s);
    }
  }

  /** A lone separator collapses to one dash, which is the leading dash. */
  lemma LoneSepStep(s: string)
    requires |s| == 1 && !IsLowerAlnum(s[0])
    ensures Collapse(s) == Lead(s) + Join(Words(s)) + Trail(s)
  {
    assert s[..0] == "";
    assert Words(s) == [];
    assert Collapse(s) == "-";
    assert Lead(s) + Join(Words(s)) + Trail(s) == "-" + "" + "";
  }

  /** Separators only: the collapsed text stays the single leading dash. */
  lemma SepWithoutWordStep(s: string)
    requires |s| > 1 && !IsLowerAlnum(s[|s| - 1])
    requires |Words(s[..|s| - 1])| == 0
    requires Collapse(s[..|s| - 1]) == Lead(s[..|s| - 1]) + Join(Words(s[..|s| - 1])) + Trail(s[..|s| - 1])
    ensures Collapse(s) == Lead(s) + Join(Words(s)) + Trail(s)
  {
    var init := s[..|s| - 1];
    assert Words(s) == Words(init);
    WordsEmptyIff(init);
    assert init[0] == s[0];
    assert !IsLowerAlnum(init[0]);
    assert Lead(init) == "-" && Lead(s) == "-";
    assert Trail(init) == "" && Trail(s) == "";
    assert Collapse(init) == "-" + "" + "";
    assert Collapse(s) == Collapse(init);
  }

  /** A separator right after a word adds the trailing dash. */
  lemma SepAfterWordStep(s: string)
    requires |s| > 1 && !IsLowerAlnum(s[|s| - 1]) && IsLowerAlnum(s[|s| - 2])
    requires |Words(s[..|s| - 1])| > 0
    requires Collapse(s[..|s| - 1]) == Lead(s[..|s| - 1]) + Join(Words(s[..|s| - 1])) + Trail(s[..|s| - 1])
    ensures Collapse(s) == Lead(s) + Join(Words(s)) + Trail(s)
  {
    var init := s[..|s| - 1];
    var J := Join(Words(init));
    var lead := Lead(s);
    assert Words(s) == Words(init);
    assert init[0] == s[0];
    assert Lead(init) == lead;
    assert Trail(init) == "" && Trail(s) == "-";
    EmptyRight(lead + J);
    assert Collapse(init) == lead + J;
    assert Collapse(s) == Collapse(init) + "-";
  }

  /** A separator after a trailing dash adds nothing. */
  lemma SepAfterSepStep(s: string)
    requires |s| > 1 && !IsLowerAlnum(s[|s| - 1]) && !IsLowerAlnum(s[|s| - 2])
    requires |Words(s[..|s| - 1])| > 0
    requires Collapse(s[..|s| - 1]) == Lead(s[..|s| - 1]) + Join(Words(s[..|s| - 1])) + Trail(s[..|s| - 1])
    ensures Collapse(s) == Lead(s) + Join(Words(s)) + Trail(s)
  {
    var init := s[..|s| - 1];
    assert Words(s) == Words(init);
    assert init[0] == s[0];
    assert Lead(init) == Lead(s);
    assert Trail(init) == "-" && Trail(s) == "-";
    assert Collapse(s) == Collapse(init);
  }

  /** The step of `CollapseIsJoin` for a final `[a-z0-9]` character. */
  lemma CollapseAlnumStep(s: string)
    requires |s| > 0 && IsLowerAlnum(s[|s| - 1])
    requires Collapse(s[..|s| - 1]) == Lead(s[..|s| - 1]) + Join(Words(s[..|s| - 1])) + Trail(s[..|s| - 1])
    ensures Collapse(s) == Lead(s) + Join(Words(s)) + Trail(s)
  {
    var init := s[..|s| - 1];
    if |init| > 0 && IsLowerAlnum(init[|init| - 1]) {
      ExtendWordStep(s);
    } else if |Words(init)| > 0 {
      NewWordStep(s);
    } else {
      FirstWordStep(s);
    }
  }

  /** A word character after a word character extends the last word. */
  lemma ExtendWordStep(s: string)
    requires |s| > 1 && IsLowerAlnum(s[|s| - 1]) && IsLowerAlnum(s[|s| - 2])
    requires Collapse(s[..|s| - 1]) == Lead(s[..|s| - 1]) + Join(Words(s[..|s| - 1])) + Trail(s[..|s| - 1])
    ensures Collapse(s) == Lead(s) + Join(Words(s)) + Trail(s)
  {
    var init := s[..|s| - 1];
    var c := s[|s| - 1];
    var ws := Words(init);
    var lead := Lead(s);
    assert init[0] == s[0];
    assert Lead(init) == lead;
    assert Collapse(s) == Collapse(init) + [c];
    assert Trail(s) == "";
    assert Trail(init) == "";
    assert Words(s) == ws[..|ws| - 1] + [ws[|ws| - 1] + [c]];
    JoinExtendLast(ws, c);
    var J := Join(ws);
    assert Join(Words(s)) == J + [c];
    EmptyRight(lead + J);
    assert Collapse(init) == lead + J;
    AppendAssoc(lead, J, [c]);
    EmptyRight(lead + Join(Words(s)));
  }

  /** A word character after a separator that follows a word starts a new word. */
  lemma NewWordStep(s: string)
    requires |s| > 1 && IsLowerAlnum(s[|s| - 1]) && !IsLowerAlnum(s[|s| - 2])
    requires |Words(s[..|s| - 1])| > 0
    requires Collapse(s[..|s| - 1]) == Lead(s[..|s| - 1]) + Join(Words(s[..|s| - 1])) + Trail(s[..|s| - 1])
    ensures Collapse(s) == Lead(s) + Join(Words(s)) + Trail(s)
  {
    var init := s[..|s| - 1];
    var c := s[|s| - 1];
    var ws := Words(init);
    var lead := Lead(s);
    assert init[0] == s[0];
    assert Lead(init) == lead;
    assert Collapse(s) == Collapse(init) + [c];
    assert Trail(s) == "";
    assert Trail(init) == "-";
    assert Words(s) == ws + [[c]];
    JoinAppend(ws, [c]);
    var J := Join(ws);
    var Js := Join(Words(s));
    assert Js == J + "-" + [c];
    AppendAssoc(lead, J, "-");
    AppendAssoc(lead, J + "-", [c]);
    assert Collapse(s) == lead + Js;
    EmptyRight(lead + Js);
  }

  /** The first word character starts the first word. */
  lemma FirstWordStep(s: string)
    requires |s| > 0 && IsLowerAlnum(s[|s| - 1])
    requires |Words(s[..|s| - 1])| == 0
    requires Collapse(s[..|s| - 1]) == Lead(s[..|s| - 1]) + Join(Words(s[..|s| - 1])) + Trail(s[..|s| - 1])
    ensures Collapse(s) == Lead(s) + Join(Words(s)) + Trail(s)
  {
    var init := s[..|s| - 1];
    var c := s[|s| - 1];
    var lead := Lead(s);
    assert |init| > 0 ==> init[0] == s[0];
    assert Collapse(s) == Collapse(init) + [c];
    assert Trail(s) == "";
    assert Trail(init) == "";
    assert Words(s) == [[c]];
    assert Join(Words(s)) == [c];
    EmptyRight(Lead(init));
    assert Collapse(init) == Lead(init);
    assert Lead(init) == lead;
    EmptyRight(lead + Join(Words(s)));
  }

  lemma AppendAssoc(a: string, b: string, c: string)
    ensures a + b + c == a + (b + c)
  {
  }

  lemma EmptyRight(a: string)
    ensures a + "" == a
  {
  }

  /** The reference meaning: a slug is the title's maximal `[a-z0-9]` runs
      (after lower-casing) joined by single dashes. */
  lemma SlugIsJoinedWords(title: string)
    ensures CreateSlug(title) == Join(Words(LowerAscii(title)))
  {
    var s := LowerAscii(title);
    var ws := Words(s);
    CollapseIsJoin(s);
    JoinIsSlug(ws);
    StripBoundaryDashes(Lead(s), Join(ws), Trail(s));
  }

  /** Stripping removes the boundary dashes around a dash-free-ended core. */
  lemma StripBoundaryDashes(lead: string, j: string, trail: string)
    requires lead == "" || lead == "-"
    requires trail == "" || trail == "-"
    requires |j| > 0 ==> j[0] != '-' && j[|j| - 1] != '-'
    requires |j| == 0 ==> trail == ""
    ensures StripDashes(lead + j + trail) == j
  {
    var c := lead + j + trail;
    var a := if |c| > 0 && c[0] == '-' then c[1..] else c;
    if lead == "-" {
      assert c[0] == '-';
      assert a == j + trail;
    } else {
      assert c == j + trail;
      assert |j| > 0 ==> c[0] == j[0];
      assert a == j + trail;
    }
    if trail == "-" {
      assert (j + trail)[..|j|] == j;
    } else {
      assert j + trail == j;
    }
  }

  /** Output shape: only `[a-z0-9-]`, no dash at either end, no double dash. */
  lemma SlugIsSlug(title: string)
    ensures IsSlug(CreateSlug(title))
  {
    SlugIsJoinedWords(title);
    JoinIsSlug(Words(LowerAscii(title)));
  }

  /** A title without ASCII letters or digits yields the empty slug, and only such a title does. */
  lemma SlugEmptyIff(title: string)
    ensures CreateSlug(title) == "" <==> !HasAlnum(LowerAscii(title))
  {
    SlugIsJoinedWords(title);
    JoinIsSlug(Words(LowerAscii(title)));
    WordsEmptyIff(LowerAscii(title));
  }

  /** Appending a word after a separator adds exactly that word. */
  lemma {:induction false} WordsAppendWord(a: string, w: string)
    requires |w| > 0 && AllAlnum(w)
    requires |a| == 0 || !IsLowerAlnum(a[|a| - 1])
    ensures Words(a + w) == Words(a) + [w]
    decreases |w|
  {
    if |w| == 1 {
      WordsAppendFirst(a, w[0]);
      assert [w[0]] == w;
    } else {
      var w' := w[..|w| - 1];
      WordsAppendWord(a, w');
      WordsExtendLast(a, w', w[|w| - 1]);
      assert w' + [w[|w| - 1]] == w;
    }
  }

  /** A word character after a separator starts a new word. */
  lemma WordsAppendFirst(a: string, c: char)
    requires IsLowerAlnum(c)
    requires |a| == 0 || !IsLowerAlnum(a[|a| - 1])
    ensures Words(a + [c]) == Words(a) + [[c]]
  {
    var s := a + [c];
    assert s[..|s| - 1] == a;
  }

  /** A word character after a word extends it. */
  lemma WordsExtendLast(a: string, w: string, c: char)
    requires |w| > 0 && IsLowerAlnum(c) && IsLowerAlnum(w[|w| - 1])
    requires Words(a + w) == Words(a) + [w]
    ensures Words(a + (w + [c])) == Words(a) + [w + [c]]
  {
    var init := a + w;
    assert a + (w + [c]) == init + [c];
    assert init[|init| - 1] == w[|w| - 1];
    WordsSnocExtend(init, c);
    var ws := Words(init);
    assert ws[..|ws| - 1] == Words(a);
    assert ws[|ws| - 1] == w;
  }

  /** One unfolding of `Words` for a word character that continues a word. */
  lemma WordsSnocExtend(init: string, c: char)
    requires IsLowerAlnum(c) && |init| > 0 && IsLowerAlnum(init[|init| - 1])
    ensures var ws := Words(init);
      Words(init + [c]) == ws[..|ws| - 1] + [ws[|ws| - 1] + [c]]
  {
    var s := init + [c];
    assert s[..|s| - 1] == init;
  }

  /** Splitting joined words gives the words back. */
  lemma {:induction false} WordsOfJoin(ws: seq<string>)
    requires WordsOk(ws)
    ensures Words(Join(ws)) == ws
    decreases |ws|
  {
    if |ws| == 1 {
      WordsAppendWord("", ws[0]);
      assert "" + ws[0] == ws[0];
      assert [] + [ws[0]] == ws;
    } else if |ws| > 1 {
      WordsOkPrefix(ws);
      WordsOfJoin(ws[..|ws| - 1]);
      WordsOfJoinStep(ws);
    }
  }

  lemma WordsOkPrefix(ws: seq<string>)
    requires WordsOk(ws) && |ws| > 0
    ensures WordsOk(ws[..|ws| - 1])
  {
    var init := ws[..|ws| - 1];
    forall k | 0 <= k < |init| ensures |init[k]| > 0 && AllAlnum(init[k]) {
      assert init[k] == ws[k];
    }
  }

  /** Joining one more word after a dash adds exactly that word. */
  lemma WordsOfJoinStep(ws: seq<string>)
    requires WordsOk(ws) && |ws| > 1
    requires Words(Join(ws[..|ws| - 1])) == ws[..|ws| - 1]
    ensures Words(Join(ws)) == ws
  {
    var init := ws[..|ws| - 1];
    var w := ws[|ws| - 1];
    SplitLast(ws);
    var a := Join(init) + "-";
    assert |w| > 0 && AllAlnum(w);
    assert a[|a| - 1] == '-';
    WordsAppendFirstSep(Join(init));
    WordsAppendWord(a, w);
    assert Join(ws) == a + w;
  }

  lemma SplitLast<T>(s: seq<T>)
    requires |s| > 0
    ensures s[..|s| - 1] + [s[|s| - 1]] == s
  {
  }

  /** A separator adds no word. */
  lemma WordsAppendFirstSep(a: string)
    ensures Words(a + "-") == Words(a)
  {
    var s := a + "-";
    assert s[..|s| - 1] == a;
  }

  /** A slug is unchanged by lower-casing. */
  lemma LowerSlug(s: string)
    requires IsSlug(s)
    ensures LowerAscii(s) == s
  {
  }

  /** Slugging a slug changes nothing. */
  lemma SlugIdempotent(title: string)
    ensures CreateSlug(CreateSlug(title)) == CreateSlug(title)
  {
    var ws := Words(LowerAscii(title));
    SlugIsJoinedWords(title);
    JoinIsSlug(ws);
    var s := CreateSlug(title);
    LowerSlug(s);
    SlugIsJoinedWords(s);
    WordsOfJoin(ws);
  }
}
