/** The last steps of `finalize` (src/index.ts:1849-1928): the anchor
    fixer, which keeps only the outermost of nested `<a>` elements and drops
    unmatched `</a>`, and the table-of-contents fill, which puts the table
    of contents in place of the first twenty `<toc_need_part>` markers and
    removes the rest. */
module Finalize {
  import opened Strings

  // ---------------------------------------------------------------------
  // Anchors (src/index.ts:1849-1875)

  /** The text as the anchor expression cuts it: an opening `<a …>`, a
      closing `</a>`, or the text between them. */
  datatype Tok = Text(s: string) | Open(tag: string) | Close

  /** One call of the replacement callback: the new depth counter and
      whether the tag is kept. Text between tags is always kept. */
  function Step(count: nat, t: Tok): (r: (nat, bool))
    ensures t.Text? ==> r == (count, true)
    ensures t.Open? ==> r.0 == count + 1 && (r.1 <==> count == 0)
    ensures t.Close? ==> r.0 == (if count == 0 then 0 else count - 1) && (r.1 <==> count == 1)
  {
    match t
    case Text(_) => (count, true)
    case Close =>
      if count == 0 then (0, false)
      else if count > 1 then (count - 1, false)
      else (count - 1, true)
    case Open(_) =>
      if count > 0 then (count + 1, false)
      else (count + 1, true)
  }

  /** The counter after the whole text and the tokens kept, in order. */
  datatype Run = Run(count: nat, out: seq<Tok>)

  function Fix(toks: seq<Tok>): Run
    decreases |toks|
  {
    if toks == [] then Run(0, [])
    else
      var r := Fix(toks[..|toks| - 1]);
      var t := toks[|toks| - 1];
      var s := Step(r.count, t);
      Run(s.0, r.out + (if s.1 then [t] else []))
  }

  /** Whether anchors in `s` never nest and every `</a>` closes one:
      `Some(open)` says whether an anchor is still open at the end,
      `None` that the rule is broken. */
  function Nesting(s: seq<Tok>): Option<bool>
    decreases |s|
  {
    if s == [] then Some(false)
    else
      match Nesting(s[..|s| - 1])
      case None => None
      case Some(open) =>
        match s[|s| - 1]
        case Text(_) => Some(open)
        case Open(_) => if open then None else Some(true)
        case Close => if open then Some(false) else None
  }

  /** The text between the tags. */
  function Texts(s: seq<Tok>): seq<string>
    decreases |s|
  {
    if s == [] then []
    else Texts(s[..|s| - 1]) + (if s[|s| - 1].Text? then [s[|s| - 1].s] else [])
  }

  /** The fixed text never nests anchors and closes each one it opens,
      except possibly a last one, which is open exactly when the counter
      has not returned to zero. */
  lemma {:induction false} FixedIsFlat(toks: seq<Tok>)
    ensures Nesting(Fix(toks).out) == Some(Fix(toks).count > 0)
    decreases |toks|
  {
    if toks != [] {
      var front := toks[..|toks| - 1];
      FixedIsFlat(front);
      var r := Fix(front);
      var t := toks[|toks| - 1];
      assert Fix(toks) == Run(Step(r.count, t).0, r.out + (if Step(r.count, t).1 then [t] else []));
      if Step(r.count, t).1 {
        var out := r.out + [t];
        assert out[..|out| - 1] == r.out && out[|out| - 1] == t;
        assert Nesting(out) == Some(Step(r.count, t).0 > 0);
      } else {
        assert r.out + [] == r.out;
      }
    }
  }

  /** All the text between tags survives, in order. */
  lemma {:induction false} FixKeepsText(toks: seq<Tok>)
    ensures Texts(Fix(toks).out) == Texts(toks)
    decreases |toks|
  {
    if toks != [] {
      var front := toks[..|toks| - 1];
      FixKeepsText(front);
      var r := Fix(front);
      var t := toks[|toks| - 1];
      assert Fix(toks) == Run(Step(r.count, t).0, r.out + (if Step(r.count, t).1 then [t] else []));
      if Step(r.count, t).1 {
        var out := r.out + [t];
        assert out[..|out| - 1] == r.out && out[|out| - 1] == t;
      } else {
        assert r.out + [] == r.out;
      }
    }
  }

  /** A text whose anchors already follow the rule is left as it is. */
  lemma {:induction false} FixKeepsFlat(toks: seq<Tok>)
    requires Nesting(toks).Some?
    ensures Fix(toks).out == toks
    ensures Fix(toks).count == (if Nesting(toks).value then 1 else 0)
    decreases |toks|
  {
    if toks != [] {
      var front := toks[..|toks| - 1];
      FixKeepsFlat(front);
      assert toks == front + [toks[|toks| - 1]];
    }
  }

  /** Fixing twice is fixing once. */
  lemma FixIdempotent(toks: seq<Tok>)
    ensures Fix(Fix(toks).out).out == Fix(toks).out
  {
    FixedIsFlat(toks);
    FixKeepsFlat(Fix(toks).out);
  }

  /** `<a 1><a 2>x</a>y</a>` keeps the outer anchor around both texts. */
  lemma NestedExample()
    ensures Fix([Open("1"), Open("2"), Text("x"), Close, Text("y"), Close]).out
         == [Open("1"), Text("x"), Text("y"), Close]
  {
    var toks := [Open("1"), Open("2"), Text("x"), Close, Text("y"), Close];
    assert toks[..1][..0] == [] && toks[..2][..1] == toks[..1] && toks[..3][..2] == toks[..2];
    assert toks[..4][..3] == toks[..3] && toks[..5][..4] == toks[..4] && toks[..5] == toks[..|toks| - 1];
    assert Fix(toks[..1]) == Run(1, [Open("1")]);
    assert Fix(toks[..2]) == Run(2, [Open("1")]);
    assert Fix(toks[..3]) == Run(2, [Open("1"), Text("x")]);
    assert Fix(toks[..4]) == Run(1, [Open("1"), Text("x")]);
    assert Fix(toks[..5]) == Run(1, [Open("1"), Text("x"), Text("y")]);
  }

  // ---------------------------------------------------------------------
  // Table of contents (src/index.ts:1891-1925)

  /** The text as a sequence of `<toc_need_part>` markers and the text
      between them. */
  datatype Seg = Chunk(s: string) | Marker

  const TocRounds: nat := 20

  /** The index of the first marker, if any. */
  function FirstMarker(segs: seq<Seg>): (r: Option<nat>)
    ensures r.Some? ==> r.value < |segs| && segs[r.value].Marker? && forall i :: 0 <= i < r.value ==> !segs[i].Marker?
    ensures r.None? ==> forall i :: 0 <= i < |segs| ==> !segs[i].Marker?
    decreases |segs|
  {
    if segs == [] then None
    else if segs[0].Marker? then Some(0)
    else match FirstMarker(segs[1..])
      case None => None
      case Some(k) => Some(k + 1)
  }

  /** The replacement text `toc` as `String.prototype.replace` expands it
      around one match: `$$` gives `$`, `$&` the marker itself, `` $` ``
      the text before the match and `$'` the text after it; any other `$`
      is kept. `acc` is the literal text read so far. */
  function Expand(toc: string, before: seq<Seg>, after: seq<Seg>, acc: string): seq<Seg>
    decreases |toc|
  {
    if toc == [] then [Chunk(acc)]
    else if |toc| >= 2 && toc[0] == '$' && toc[1] == '$' then Expand(toc[2..], before, after, acc + "$")
    else if |toc| >= 2 && toc[0] == '$' && toc[1] == '&' then [Chunk(acc), Marker] + Expand(toc[2..], before, after, "")
    else if |toc| >= 2 && toc[0] == '$' && toc[1] == '`' then [Chunk(acc)] + before + Expand(toc[2..], before, after, "")
    else if |toc| >= 2 && toc[0] == '$' && toc[1] == '\'' then [Chunk(acc)] + after + Expand(toc[2..], before, after, "")
    else Expand(toc[1..], before, after, acc + [toc[0]])
  }

  /** `toc` holds none of the four `$` patterns. */
  predicate NoPatterns(toc: string) {
    forall i :: 0 <= i < |toc| - 1 && toc[i] == '$' ==> toc[i + 1] !in "$&`'"
  }

  /** Without a `$` pattern the replacement is the text itself. */
  lemma {:induction false} ExpandPlain(toc: string, before: seq<Seg>, after: seq<Seg>, acc: string)
    requires NoPatterns(toc)
    ensures Expand(toc, before, after, acc) == [Chunk(acc + toc)]
    decreases |toc|
  {
    if toc != [] {
      assert |toc| >= 2 && toc[0] == '$' ==> toc[1] !in "$&`'";
      assert Expand(toc, before, after, acc) == Expand(toc[1..], before, after, acc + [toc[0]]);
      assert NoPatterns(toc[1..]) by {
        forall i | 0 <= i < |toc[1..]| - 1 && toc[1..][i] == '$'
          ensures toc[1..][i + 1] !in "$&`'"
        {
          assert toc[i + 1] == '$';
        }
      }
      ExpandPlain(toc[1..], before, after, acc + [toc[0]]);
      assert (acc + [toc[0]]) + toc[1..] == acc + toc;
    } else {
      assert acc + toc == acc;
    }
  }

  /** One `replace(/<toc_need_part>/, toc)`: the first marker becomes the
      expanded table of contents. */
  function FillFirst(segs: seq<Seg>, toc: string): (r: seq<Seg>)
    ensures FirstMarker(segs).None? ==> r == segs
  {
    match FirstMarker(segs)
    case None => segs
    case Some(k) => segs[..k] + Expand(toc, segs[..k], segs[k + 1..], "") + segs[k + 1..]
  }

  /** Without a `$` pattern one replacement works segment by segment. */
  lemma FillFirstPlain(segs: seq<Seg>, toc: string)
    requires NoPatterns(toc) && segs != []
    ensures FillFirst(segs, toc) == if segs[0].Marker? then [Chunk(toc)] + segs[1..]
                                    else [segs[0]] + FillFirst(segs[1..], toc)
  {
    if segs[0].Marker? {
      ExpandPlain(toc, [], segs[1..], "");
      assert segs[..0] == [] && "" + toc == toc;
    } else {
      match FirstMarker(segs[1..])
      case None =>
      case Some(k) => FillFirstLater(segs, toc, k);
    }
  }

  /** The first marker past a leading chunk. */
  lemma FillFirstLater(segs: seq<Seg>, toc: string, k: nat)
    requires NoPatterns(toc) && segs != [] && !segs[0].Marker? && FirstMarker(segs[1..]) == Some(k)
    ensures FillFirst(segs, toc) == [segs[0]] + FillFirst(segs[1..], toc)
  {
    assert FirstMarker(segs) == Some(k + 1);
    FillFirstAt(segs, toc, k + 1);
    FillFirstAt(segs[1..], toc, k);
    SpliceCons(segs, Chunk(toc), k);
  }

  lemma SpliceCons(segs: seq<Seg>, c: Seg, k: nat)
    requires k + 1 < |segs|
    ensures segs[..k + 1] + [c] + segs[k + 2..] == [segs[0]] + (segs[1..][..k] + [c] + segs[1..][k + 1..])
  {
    assert segs[..k + 1] == [segs[0]] + segs[1..][..k];
    assert segs[k + 2..] == segs[1..][k + 1..];
  }

  /** Without a `$` pattern the first marker becomes the text itself. */
  lemma FillFirstAt(segs: seq<Seg>, toc: string, k: nat)
    requires NoPatterns(toc) && FirstMarker(segs) == Some(k)
    ensures FillFirst(segs, toc) == segs[..k] + [Chunk(toc)] + segs[k + 1..]
  {
    assert "" + toc == toc;
    ExpandPlain(toc, segs[..k], segs[k + 1..], "");
  }

  /** The twenty-round loop as written: `n` replacements one after another. */
  function Rounds(segs: seq<Seg>, toc: string, n: nat): seq<Seg> {
    if n == 0 then segs else FillFirst(Rounds(segs, toc, n - 1), toc)
  }

  /** The number of markers in `segs`. */
  function Markers(segs: seq<Seg>): nat
    decreases |segs|
  {
    if segs == [] then 0 else (if segs[0].Marker? then 1 else 0) + Markers(segs[1..])
  }

  /** `replace(/<toc_need_part>/g, "")`. */
  function RemoveMarkers(segs: seq<Seg>): (r: seq<Seg>)
    ensures |r| == |segs|
    ensures forall i :: 0 <= i < |segs| ==> r[i] == (if segs[i].Marker? then Chunk("") else segs[i])
  {
    if segs == [] then [] else [if segs[0].Marker? then Chunk("") else segs[0]] + RemoveMarkers(segs[1..])
  }

  /** The first `j` markers filled, the later ones kept. */
  function Filled(segs: seq<Seg>, toc: string, j: nat): seq<Seg>
    decreases |segs|
  {
    if segs == [] then []
    else if segs[0].Marker? && j > 0 then [Chunk(toc)] + Filled(segs[1..], toc, j - 1)
    else [segs[0]] + Filled(segs[1..], toc, j)
  }

  /** Position by position: a marker with fewer than `j` markers before it
      holds the table of contents; everything else is unchanged. */
  lemma {:induction false} FilledAt(segs: seq<Seg>, toc: string, j: nat)
    ensures |Filled(segs, toc, j)| == |segs|
    ensures forall i :: 0 <= i < |segs| ==>
              Filled(segs, toc, j)[i] == (if segs[i].Marker? && Markers(segs[..i]) < j then Chunk(toc) else segs[i])
    decreases |segs|
  {
    if segs != [] {
      var j' := if segs[0].Marker? && j > 0 then j - 1 else j;
      FilledAt(segs[1..], toc, j');
      forall i | 1 <= i < |segs|
        ensures Markers(segs[..i]) == (if segs[0].Marker? then 1 else 0) + Markers(segs[1..][..i - 1])
      {
        assert segs[..i][1..] == segs[1..][..i - 1];
      }
      assert segs[..0] == [];
    }
  }

  /** One more round fills one more marker. */
  lemma {:induction false} FillFirstStep(segs: seq<Seg>, toc: string, j: nat)
    requires NoPatterns(toc)
    ensures FillFirst(Filled(segs, toc, j), toc) == Filled(segs, toc, j + 1)
    decreases |segs|
  {
    if segs != [] {
      FillFirstPlain(Filled(segs, toc, j), toc);
      if segs[0].Marker? && j > 0 {
        FillFirstStep(segs[1..], toc, j - 1);
      } else if segs[0].Marker? {
        FilledNone(segs[1..], toc);
      } else {
        FillFirstStep(segs[1..], toc, j);
      }
    }
  }

  lemma {:induction false} FilledNone(segs: seq<Seg>, toc: string)
    ensures Filled(segs, toc, 0) == segs
    decreases |segs|
  {
    if segs != [] {
      FilledNone(segs[1..], toc);
    }
  }

  /** Without a `$` pattern, `n` rounds fill the first `n` markers. */
  lemma {:induction false} RoundsFilled(segs: seq<Seg>, toc: string, n: nat)
    requires NoPatterns(toc)
    ensures Rounds(segs, toc, n) == Filled(segs, toc, n)
  {
    if n == 0 {
      FilledNone(segs, toc);
    } else {
      var x := Rounds(segs, toc, n - 1);
      assert Rounds(segs, toc, n) == FillFirst(x, toc);
      RoundsFilled(segs, toc, n - 1);
      FillFirstStep(segs, toc, n - 1);
    }
  }

  /** The table-of-contents fill: twenty rounds of replacing the first
      marker, then every marker left removed. */
  method FillToc(segs: seq<Seg>, toc: string) returns (r: seq<Seg>)
    ensures r == RemoveMarkers(Rounds(segs, toc, TocRounds))
    ensures NoPatterns(toc) ==> r == RemoveMarkers(Filled(segs, toc, TocRounds))
  {
    r := segs;
    for i := 0 to TocRounds
      invariant r == Rounds(segs, toc, i)
    {
      r := FillFirst(r, toc);
    }
    if NoPatterns(toc) {
      RoundsFilled(segs, toc, TocRounds);
    }
    r := RemoveMarkers(r);
  }

  /** What the fill leaves at each position when the table of contents
      holds no `$` pattern: the first twenty markers hold it, later markers
      are empty, and the text between markers is unchanged. */
  lemma TocPlacement(segs: seq<Seg>, toc: string)
    requires NoPatterns(toc)
    ensures var r := RemoveMarkers(Rounds(segs, toc, TocRounds));
            && |r| == |segs|
            && forall i :: 0 <= i < |segs| ==>
                 r[i] == (if segs[i].Marker? then (if Markers(segs[..i]) < TocRounds then Chunk(toc) else Chunk("")) else segs[i])
  {
    RoundsFilled(segs, toc, TocRounds);
    FilledAt(segs, toc, TocRounds);
  }

  /** The text of the segments once the markers are gone. */
  function Visible(segs: seq<Seg>): string
    decreases |segs|
  {
    if segs == [] then "" else (if segs[0].Marker? then "" else segs[0].s) + Visible(segs[1..])
  }

  lemma {:induction false} VisibleAppend(a: seq<Seg>, b: seq<Seg>)
    ensures Visible(a + b) == Visible(a) + Visible(b)
    decreases |a|
  {
    if a != [] {
      assert (a + b)[0] == a[0] && (a + b)[1..] == a[1..] + b;
      VisibleAppend(a[1..], b);
    } else {
      assert a + b == b;
    }
  }

  /** A table of contents `$&` puts the marker back in every round, so the
      table never appears and every marker ends up empty. */
  lemma {:induction false} TocEchoesMarker(segs: seq<Seg>, n: nat)
    ensures Visible(Rounds(segs, "$&", n)) == Visible(segs)
    ensures Visible(RemoveMarkers(Rounds(segs, "$&", n))) == Visible(segs)
  {
    RemoveMarkersVisible(Rounds(segs, "$&", n));
    if n > 0 {
      TocEchoesMarker(segs, n - 1);
      EchoRound(Rounds(segs, "$&", n - 1));
    }
  }

  /** One round with `$&` swaps the first marker for itself between two
      empty texts. */
  lemma EchoRound(x: seq<Seg>)
    ensures Visible(FillFirst(x, "$&")) == Visible(x)
  {
    match FirstMarker(x)
    case None =>
    case Some(k) =>
      var e := Expand("$&", x[..k], x[k + 1..], "");
      assert e == [Chunk(""), Marker, Chunk("")];
      assert Visible(e) == "" by {
        assert e[1..][1..][1..] == [];
        assert Visible(e[1..][1..]) == "";
        assert Visible(e[1..]) == "";
      }
      assert Visible([Marker]) == "" by {
        assert [Marker][1..] == [];
      }
      assert x == x[..k] + [Marker] + x[k + 1..];
      VisibleAppend(x[..k] + [Marker], x[k + 1..]);
      VisibleAppend(x[..k], [Marker]);
      VisibleAppend(x[..k] + e, x[k + 1..]);
      VisibleAppend(x[..k], e);
  }

  /** Removing the markers keeps the visible text. */
  lemma {:induction false} RemoveMarkersVisible(segs: seq<Seg>)
    ensures Visible(RemoveMarkers(segs)) == Visible(segs)
    decreases |segs|
  {
    if segs != [] {
      assert RemoveMarkers(segs)[1..] == RemoveMarkers(segs[1..]);
      RemoveMarkersVisible(segs[1..]);
    }
  }

  /** `this.config.useTocSet || true`: as written the setting can never
      turn the marker fill off; `?? true` would keep `false`. */
  function UseTocSet(config: Option<bool>, intended: bool): bool {
    if intended then (config.None? || config.value) else (config.Some? && config.value) || true
  }

  /** The table of contents is put before the first heading only when no
      setting, marker or included document asks otherwise. */
  function AutoToc(docInclude: string, noAutoMarker: bool, useTocSet: bool, tocDataOn: bool): bool {
    !(docInclude != "" || noAutoMarker || useTocSet || tocDataOn)
  }

  /** As written the automatic placement never happens; with the setting
      honoured, a document with `useTocSet: false` and no other reason gets it. */
  lemma AutoTocUnreachable(config: Option<bool>, docInclude: string, noAutoMarker: bool, tocDataOn: bool)
    ensures !AutoToc(docInclude, noAutoMarker, UseTocSet(config, false), tocDataOn)
    ensures AutoToc("", false, UseTocSet(Some(false), true), false)
    ensures UseTocSet(None, true) && UseTocSet(Some(true), true)
  {
  }
}
