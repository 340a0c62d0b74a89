/** The renderer object of src/index.ts:42-215 and its footnote and link
    passes (src/index.ts:1138-1558) and anchor fixer (src/index.ts:1850-1875).
    `NamuMark` keeps the placeholder store, the footnote registry, the
    category list, the backlinks and the category bar in fields that its
    methods update in place; each method is proved against a function of
    the old state, and the properties of the passes are lemmas about those
    functions. */
module Renderer {
  import opened Strings
  import opened Placeholders
  import Footnote
  import Links
  import Html
  import Tools
  import Finalize

  /** The document and the services the renderer calls: `urlPas` (address
      encoding) and `sha224Replace` are not part of this model and are
      taken as given functions. The database is the set of existing titles. */
  datatype Env = Env(docName: string, docInclude: string, database: set<string>, darkmode: string,
                     urlPas: string -> string, sha224: string -> string)

  /** The fields the passes change. */
  datatype State = State(storage: map<string, string>, count: nat, footnotes: Footnote.Registry,
                         categoryList: seq<string>, backlinks: seq<Links.Backlink>, categoryBar: string)

  const Initial := State(map[], 0, Footnote.Empty, [], [], "")

  /** Every store key is numbered at most the counter, the registry is
      well formed and no category is listed twice. */
  predicate Consistent(st: State) {
    StoreValid(st.storage, st.count) && Footnote.Valid(st.footnotes) && Links.Distinct(st.categoryList)
  }

  lemma InitialConsistent()
    ensures Consistent(Initial)
  {
  }

  // ---------------------------------------------------------------------
  // The escaper of src/index.ts:11-22

  /** `escapeHtml` of src/index.ts, with the decimal apostrophe entity
      `&#039;`: none of `<`, `>`, `"`, `'` is left, and text without
      special characters is unchanged. */
  function EscapeHtml(text: string): (r: string)
    ensures '<' !in r && '>' !in r && '"' !in r && '\'' !in r
    ensures (forall i :: 0 <= i < |text| ==> !Html.IsSpecial(text[i])) ==> r == text
  {
    Html.EscapeRemovesSpecials(text, Html.AposDec);
    Html.EscapeIdentityIf(text, Html.AposDec);
    Html.Escape(text, Html.AposDec)
  }

  /** `unescapeHtml` of src/index.ts: text without `&` is unchanged. */
  function UnescapeHtml(html: string): (r: string)
    ensures '&' !in html ==> r == html
  {
    if '&' !in html then
      Html.UnescapeIdentity(html, Html.AposDec);
      Html.Unescape(html, Html.AposDec)
    else Html.Unescape(html, Html.AposDec)
  }

  // ---------------------------------------------------------------------
  // getToolDataStorage and getToolDataRestore (src/index.ts:87-121)

  /** A new placeholder: the counter goes up by one; a `render` entry
      stores its opening value, its closing value and its source text, any
      other kind one `slash` value. */
  function Store(st: State, a: string, b: string, c: string, doType: string): (State, string) {
    var n := st.count + 1;
    if doType == "render" then
      var name := RenderKey(n);
      (st.(storage := st.storage[name := a]["/" + name := b]["revert_" + name := c], count := n), name)
    else
      var name := SlashKey(n);
      (st.(storage := st.storage[name := a], count := n), name)
  }

  /** A new placeholder never overwrites an earlier one: its keys were
      free, every earlier entry is kept, the counter is the new name's
      number and the store stays well formed. */
  lemma StoreKeeps(st: State, a: string, b: string, c: string, doType: string)
    requires Consistent(st)
    ensures var (st', name) := Store(st, a, b, c, doType);
            && Consistent(st')
            && st'.count == st.count + 1
            && KeyNumber(name) == Some(st'.count)
            && name !in st.storage && st'.storage[name] == a
            && (doType == "render" ==> "/" + name !in st.storage && "revert_" + name !in st.storage
                                       && st'.storage["/" + name] == b && st'.storage["revert_" + name] == c)
            && (forall k :: k in st.storage ==> k in st'.storage && st'.storage[k] == st.storage[k])
            && st'.(storage := st.storage, count := st.count) == st
  {
    StoreStaysValid(st, a, b, c, doType);
    StoreFreshKeys(st, a, b, c, doType);
    StoreExtends(st, a, b, c, doType);
  }

  lemma StoreStaysValid(st: State, a: string, b: string, c: string, doType: string)
    requires StoreValid(st.storage, st.count)
    ensures var st' := Store(st, a, b, c, doType).0; StoreValid(st'.storage, st'.count)
  {
    var n := st.count + 1;
    KeyNumbers(n);
    GrowValid(st.storage, st.count);
    if doType == "render" {
      var name := RenderKey(n);
      var s1 := st.storage[name := a];
      var s2 := s1["/" + name := b];
      PutValid(st.storage, n, name, a);
      PutValid(s1, n, "/" + name, b);
      PutValid(s2, n, "revert_" + name, c);
    } else {
      PutValid(st.storage, n, SlashKey(n), a);
    }
  }

  lemma StoreFreshKeys(st: State, a: string, b: string, c: string, doType: string)
    requires StoreValid(st.storage, st.count)
    ensures var (st', name) := Store(st, a, b, c, doType);
            && KeyNumber(name) == Some(st'.count)
            && name !in st.storage && st'.storage[name] == a
            && (doType == "render" ==> "/" + name !in st.storage && "revert_" + name !in st.storage
                                       && st'.storage["/" + name] == b && st'.storage["revert_" + name] == c)
  {
    if doType == "render" {
      RenderKeysFresh(st, a, b, c);
    } else {
      var n := st.count + 1;
      KeyNumbers(n);
      FreshKey(st.storage, st.count, SlashKey(n));
    }
  }

  lemma RenderKeysFresh(st: State, a: string, b: string, c: string)
    requires StoreValid(st.storage, st.count)
    ensures var name := RenderKey(st.count + 1);
            && Store(st, a, b, c, "render").1 == name
            && KeyNumber(name) == Some(st.count + 1)
            && name !in st.storage && "/" + name !in st.storage && "revert_" + name !in st.storage
    ensures var (st', name) := Store(st, a, b, c, "render");
            st'.storage[name] == a && st'.storage["/" + name] == b && st'.storage["revert_" + name] == c
  {
    var n := st.count + 1;
    var name := RenderKey(n);
    KeyNumbers(n);
    FreshKey(st.storage, st.count, name);
    FreshKey(st.storage, st.count, "/" + name);
    FreshKey(st.storage, st.count, "revert_" + name);
    RenderKeysDiffer(name);
  }

  lemma StoreExtends(st: State, a: string, b: string, c: string, doType: string)
    requires StoreValid(st.storage, st.count)
    ensures var st' := Store(st, a, b, c, doType).0;
            && st'.count == st.count + 1
            && (forall k :: k in st.storage ==> k in st'.storage && st'.storage[k] == st.storage[k])
            && st'.(storage := st.storage, count := st.count) == st
  {
    StoreKeepsEntries(st, a, b, c, doType);
  }

  lemma StoreKeepsEntries(st: State, a: string, b: string, c: string, doType: string)
    requires StoreValid(st.storage, st.count)
    ensures var st' := Store(st, a, b, c, doType).0;
            forall k :: k in st.storage ==> k in st'.storage && st'.storage[k] == st.storage[k]
  {
    if doType == "render" {
      RenderKeysFresh(st, a, b, c);
    } else {
      var n := st.count + 1;
      KeyNumbers(n);
      FreshKey(st.storage, st.count, SlashKey(n));
    }
  }

  /** The three keys of a rendered placeholder are distinct. */
  lemma RenderKeysDiffer(name: string)
    ensures name != "/" + name && name != "revert_" + name && "/" + name != "revert_" + name
  {
    assert |"/" + name| != |name| && |"revert_" + name| != |name| && |"revert_" + name| != |"/" + name|;
  }

  /** A stored slash value comes back when its tag is restored. */
  lemma StoreThenRestore(st: State, a: string, p: string, q: string, scope: Scope, budget: int)
    requires Consistent(st) && budget >= 0 && scope != RenderOnly
    requires '<' !in p && '<' !in q && '<' !in a
    ensures var (st', name) := Store(st, a, "", "", "slash");
            Restore(st'.storage, p + "<" + name + ">" + q, scope, budget) == p + a + q
  {
    StoreKeeps(st, a, "", "", "slash");
    SlashRoundTrip(Store(st, a, "", "", "slash").0.storage, st.count + 1, p, q, scope, budget);
  }

  /** `getToolDataRestore(text, "slash")`. */
  function RestoreSlash(st: State, s: string): string {
    Restore(st.storage, s, SlashOnly, 3 * st.count)
  }

  // ---------------------------------------------------------------------
  // Footnotes (src/index.ts:1499-1558)

  /** One footnote marker: `[*name text]` with its whole text, or `[각주]`. */
  datatype FootMark = Cite(explicit: string, text: string, full: string) | ListHere

  function FootnoteRef(inc: string, first: string, num: string, caption: string): string {
    "<sup><a fn_target=\"" + inc + "fn_" + first + "\" id=\"" + inc + "rfn_" + num + "\" href=\"#" + inc + "fn_" + first
    + "\">(" + caption + ")</a></sup>"
  }

  /** The note a citation with ordinal `num` registers. */
  function CiteNote(m: FootMark, num: nat): Footnote.Note
    requires m.Cite?
  {
    Footnote.Note(Footnote.NameOf(m.explicit, num), NatToString(num), m.text)
  }

  /** The reference a citation leaves in the text: a repeated name links
      to its first citation. */
  function CiteRef(r: Footnote.Registry, inc: string, explicit: string, num: nat): string
    requires Footnote.Valid(r)
  {
    var numStr := NatToString(num);
    var name := Footnote.NameOf(explicit, num);
    if name in r.entries then
      FootnoteRef(inc, r.entries[name].list[0], numStr, name + " (" + numStr + ")")
    else
      FootnoteRef(inc, numStr, numStr, name + (if explicit != "" then " (" + numStr + ")" else ""))
  }

  /** What a marker turns into: the placeholder of a stored citation, or
      the list of the footnotes registered at that point. */
  datatype Piece = Tag(name: string) | List(notes: Footnote.ValidRegistry)

  /** The text a piece stands for. */
  function Shown(p: Piece, inc: string): string {
    match p
    case Tag(name) => "<" + name + "></" + name + ">"
    case List(notes) => Footnote.Make(notes, inc)
  }

  /** The texts of the pieces, in order. */
  function ShownAll(ps: seq<Piece>, inc: string): seq<string>
    decreases |ps|
  {
    if ps == [] then [] else ShownAll(ps[..|ps| - 1], inc) + [Shown(ps[|ps| - 1], inc)]
  }

  /** One marker with ordinal `num`: a citation is registered and its
      reference stored; `[각주]` is replaced by the list so far, which is
      then emptied. The registration is the corrected one (see
      `Footnote.RegisterAsWritten`). */
  function FootnoteStep(st: State, env: Env, m: FootMark, num: nat): (r: (State, Piece))
    requires Footnote.Valid(st.footnotes)
    ensures Footnote.Valid(r.0.footnotes)
    ensures m.ListHere? ==> r.0.count == st.count && r.0.footnotes == Footnote.Empty && r.1 == List(st.footnotes)
    ensures m.Cite? ==> r.0.count == st.count + 1
                        && r.0.footnotes == Footnote.Register(st.footnotes, CiteNote(m, num))
                        && r.1 == Tag(RenderKey(r.0.count))
  {
    match m
    case ListHere => (st.(footnotes := Footnote.Empty), List(st.footnotes))
    case Cite(explicit, _, full) =>
      var html := CiteRef(st.footnotes, env.docInclude, explicit, num);
      var st1 := st.(footnotes := Footnote.Register(st.footnotes, CiteNote(m, num)));
      var (st2, dataName) := Store(st1, html, "", full, "render");
      (st2, Tag(dataName))
  }

  /** The marker loop after its first `k` turns, which handle the markers
      with ordinals 1 to `k`: the state, and what each of them became. */
  function FootnoteRun(st: State, env: Env, ms: seq<FootMark>, k: nat): (r: (State, seq<Piece>))
    requires Footnote.Valid(st.footnotes) && k <= |ms|
    ensures Footnote.Valid(r.0.footnotes)
  {
    if k == 0 then (st, [])
    else
      var before := FootnoteRun(st, env, ms, k - 1);
      var step := FootnoteStep(before.0, env, ms[k - 1], k);
      (step.0, before.1 + [step.1])
  }

  /** Four times the length of the match array of the three-group footnote expression. */
  const FootnoteBudget: nat := 16

  /** The turns the loop takes: it stops when no marker is left, or once
      the budget, decremented every turn, has gone below zero. */
  function FootnoteTurns(ms: seq<FootMark>): nat {
    Min(|ms|, FootnoteBudget + 1)
  }

  /** The whole pass: the loop, then the remaining list is appended and
      the registry emptied. */
  function FootnotePass(st: State, env: Env, ms: seq<FootMark>): (r: (State, seq<string>, string))
    requires Footnote.Valid(st.footnotes)
  {
    var (st1, pieces) := FootnoteRun(st, env, ms, FootnoteTurns(ms));
    (st1.(footnotes := Footnote.Empty), ShownAll(pieces, env.docInclude), Footnote.Make(st1.footnotes, env.docInclude))
  }

  /** The notes the citations of `ms` register, numbered from `num`. */
  function Notes(ms: seq<FootMark>, num: nat): seq<Footnote.Note> {
    Collect(ms, num, NoteOf)
  }

  /** The note one marker registers, if it is a citation. */
  function NoteOf(m: FootMark, num: nat): seq<Footnote.Note> {
    if m.Cite? then [CiteNote(m, num)] else []
  }

  /** What `f` gives for each marker of `ms` with its ordinal, in order. */
  function Collect(ms: seq<FootMark>, num: nat, f: (FootMark, nat) -> seq<Footnote.Note>): seq<Footnote.Note>
    decreases |ms|
  {
    if ms == [] then [] else f(ms[0], num) + Collect(ms[1..], num + 1, f)
  }

  function Min(a: int, b: int): int { if a < b then a else b }

  /** The loop has run its course when the markers or the budget ran out. */
  lemma TurnsAtExit(ms: seq<FootMark>, num: nat)
    requires num <= |ms| && num <= FootnoteBudget + 1
    requires num == |ms| || num == FootnoteBudget + 1
    ensures num == FootnoteTurns(ms)
  {
  }

  /** The texts of the pieces, position by position. */
  lemma {:induction false} ShownAllAt(ps: seq<Piece>, inc: string)
    ensures |ShownAll(ps, inc)| == |ps|
    ensures forall j :: 0 <= j < |ps| ==> ShownAll(ps, inc)[j] == Shown(ps[j], inc)
    decreases |ps|
  {
    if ps != [] {
      var init := ps[..|ps| - 1];
      ShownAllAt(init, inc);
      var r := ShownAll(ps, inc);
      assert r == ShownAll(init, inc) + [Shown(ps[|ps| - 1], inc)];
      forall j | 0 <= j < |ps| ensures r[j] == Shown(ps[j], inc) {
        if j < |ps| - 1 {
          assert ps[j] == init[j];
        }
      }
    }
  }

  /** A marker keeps the state consistent: a citation's placeholder is
      fresh and the registry stays well formed. */
  lemma FootnoteStepConsistent(st: State, env: Env, m: FootMark, num: nat)
    requires Consistent(st)
    ensures Consistent(FootnoteStep(st, env, m, num).0)
  {
    if m.Cite? {
      var html := CiteRef(st.footnotes, env.docInclude, m.explicit, num);
      StoreKeeps(st.(footnotes := Footnote.Register(st.footnotes, CiteNote(m, num))), html, "", m.full, "render");
    }
  }

  lemma {:induction false} FootnoteRunConsistent(st: State, env: Env, ms: seq<FootMark>, k: nat)
    requires Consistent(st) && k <= |ms|
    ensures Consistent(FootnoteRun(st, env, ms, k).0)
    decreases k
  {
    if k > 0 {
      FootnoteRunConsistent(st, env, ms, k - 1);
      FootnoteStepConsistent(FootnoteRun(st, env, ms, k - 1).0, env, ms[k - 1], k);
    }
  }

  /** Every turn handles exactly one marker. */
  lemma {:induction false} FootnoteRunLength(st: State, env: Env, ms: seq<FootMark>, k: nat)
    requires Footnote.Valid(st.footnotes) && k <= |ms|
    ensures |FootnoteRun(st, env, ms, k).1| == k
    decreases k
  {
    if k > 0 {
      FootnoteRunLength(st, env, ms, k - 1);
    }
  }

  /** Without `[각주]`, each citation stores exactly one placeholder. */
  lemma {:induction false} FootnoteRunCount(st: State, env: Env, ms: seq<FootMark>, k: nat)
    requires Footnote.Valid(st.footnotes) && k <= |ms|
    requires forall j :: 0 <= j < k ==> ms[j].Cite?
    ensures FootnoteRun(st, env, ms, k).0.count == st.count + k
    decreases k
  {
    if k > 0 {
      FootnoteRunCount(st, env, ms, k - 1);
    }
  }

  /** The notes of one more marker. */
  lemma NotesSnoc(ms: seq<FootMark>, m: FootMark, num: nat)
    ensures Notes(ms + [m], num) == Notes(ms, num) + (if m.Cite? then [CiteNote(m, num + |ms|)] else [])
  {
    CollectSnoc(ms, m, num, NoteOf);
  }

  lemma {:induction false} CollectSnoc(ms: seq<FootMark>, m: FootMark, num: nat, f: (FootMark, nat) -> seq<Footnote.Note>)
    ensures Collect(ms + [m], num, f) == Collect(ms, num, f) + f(m, num + |ms|)
    decreases |ms|
  {
    if ms == [] {
      assert [m][1..] == [];
    } else {
      assert (ms + [m])[1..] == ms[1..] + [m];
      CollectSnoc(ms[1..], m, num + 1, f);
    }
  }

  /** The notes of the first `k` markers, from those of the first `k - 1`. */
  lemma NotesTake(ms: seq<FootMark>, k: nat)
    requires 0 < k <= |ms|
    ensures Notes(ms[..k], 1) == Notes(ms[..k - 1], 1) + (if ms[k - 1].Cite? then [CiteNote(ms[k - 1], k)] else [])
  {
    assert ms[..k] == ms[..k - 1] + [ms[k - 1]];
    NotesSnoc(ms[..k - 1], ms[k - 1], 1);
  }

  /** Without `[각주]`, the registry after the loop is the citations
      registered one after another, so what `Footnote.MergeByName` and
      `Footnote.FirstBodyWins` prove about a run of citations holds of it. */
  lemma {:induction false} FootnoteRunRegisters(st: State, env: Env, ms: seq<FootMark>, k: nat)
    requires Footnote.Valid(st.footnotes) && k <= |ms|
    requires forall j :: 0 <= j < k ==> ms[j].Cite?
    ensures FootnoteRun(st, env, ms, k).0.footnotes == Footnote.RegisterAll(st.footnotes, Notes(ms[..k], 1))
    decreases k
  {
    if k > 0 {
      FootnoteRunRegisters(st, env, ms, k - 1);
      NotesTake(ms, k);
      Footnote.RegisterAllSnoc(st.footnotes, Notes(ms[..k - 1], 1), CiteNote(ms[k - 1], k));
    }
  }

  /** After the pass the registry is empty, so a later pass starts afresh;
      the markers handled are the first seventeen, and the state stays
      consistent. */
  lemma FootnotePassEmpties(st: State, env: Env, ms: seq<FootMark>)
    requires Consistent(st)
    ensures FootnotePass(st, env, ms).0.footnotes == Footnote.Empty
    ensures |FootnotePass(st, env, ms).1| == Min(|ms|, FootnoteBudget + 1)
    ensures Consistent(FootnotePass(st, env, ms).0)
  {
    var run := FootnoteRun(st, env, ms, FootnoteTurns(ms));
    FootnoteRunLength(st, env, ms, FootnoteTurns(ms));
    ShownAllAt(run.1, env.docInclude);
    FootnoteRunConsistent(st, env, ms, FootnoteTurns(ms));
  }

  // ---------------------------------------------------------------------
  // Links (src/index.ts:1138-1495)

  /** What the file handler computes from the link before it stores it:
      the target address, the name left in `linkMainOriginal`, the
      missing-file class and the extension used in the address. */
  datatype FileTarget = FileTarget(target: string, original: string, exist: string, ext: string, name: string)

  function FileTargetOf(st: State, env: Env, main: string): FileTarget {
    if Links.IsOutFile(main) then
      var t := main[Links.PrefixLength(main, ["외부:", "out:"])..];
      FileTarget(ReplaceAll(UnescapeHtml(RestoreSlash(st, t)), "\"", "&quot;"), "", "", "", "")
    else
      var t := main[Links.PrefixLength(main, ["파일:", "file:"])..];
      var name := UnescapeHtml(RestoreSlash(st, t));
      var ext := Links.Extension(name);
      var base := if ext.Some? then name[..|name| - |ext.value| - 1] else name;
      FileTarget(Links.ImageTarget(env.urlPas(env.sha224(base)), name), base,
                 (if "file:" + name in env.database then "" else "opennamu_not_exist_link"),
                 (if ext.Some? then ext.value else "jpg"), name)
  }

  /** The placeholder of a file link: its opening and closing values. */
  function FileAnchor(env: Env, sub: string, opts: Links.FileOpts, f: FileTarget, out: bool): (string, string) {
    var width := if opts.width != "" then "width:" + Tools.CssSafe(opts.width) + ";" else "";
    var height := if opts.height != "" then "height:" + Tools.CssSafe(opts.height) + ";" else "";
    var float := if opts.align == "left" || opts.align == "right" then "float:" + opts.align + ";" else "";
    var bg := if opts.bgcolor != "" then "background:" + Tools.CssSafe(opts.bgcolor) + ";" else "";
    var img := "<img style=\"" + width + height + float + bg + "\" alt=\"" + sub + "\" src=\"" + f.target + "\">";
    var fileEnd := if opts.align == "center" then "<div style=\"text-align:center;\">" + img + "</div>" else img;
    var pass := opts.turn == "" || (opts.turn == "dark" && env.darkmode == "1") || (opts.turn == "light" && env.darkmode == "0");
    if f.exist != "" then
      ("<a class=\"" + f.exist + "\" title=\"" + sub + "\" href=\"/upload?name=" + env.urlPas(f.original) + "\">" + sub + "</a>", "</a>")
    else if pass && !out then
      ("<a title=\"" + sub + "\" href=\"/w/file:" + env.urlPas(f.original) + "." + env.urlPas(f.ext) + "\">" + fileEnd, "</a>")
    else if pass then
      ("<a title=\"" + sub + "\" href=\"" + f.target + "\">" + fileEnd, "</a>")
    else ("", "")
  }

  /** The file handler: its backlinks and placeholder, what the link
      becomes, and the file target it leaves for the next handler. */
  function FileLink(st: State, env: Env, m: Links.LinkMatch, intended: bool): (r: (State, string, FileTarget))
    ensures r.0.footnotes == st.footnotes && r.0.categoryList == st.categoryList
    ensures r.0.count == st.count + 1
  {
    var out := Links.IsOutFile(m.main);
    var f := FileTargetOf(st, env, m.main);
    var st1 := if out then st else st.(backlinks := st.backlinks + Links.FileBacklinks(env.database, env.docName, f.name));
    var (a, b) := FileAnchor(env, m.main, Links.FileOptions(Links.PartTwo(m, intended), intended), f, out);
    var (st2, dataName) := Store(st1, a, b, m.full, "render");
    (st2, "<" + dataName + "></" + dataName + ">", f)
  }

  /** The category handler; the link is removed from the text. */
  function CategoryLink(st: State, env: Env, main: string, m: Links.LinkMatch, intended: bool): (r: State)
    ensures r.storage == st.storage && r.count == st.count && r.footnotes == st.footnotes
    ensures Links.Distinct(st.categoryList) ==> Links.Distinct(r.categoryList)
  {
    var (sub, blur) := Links.CategoryText(main, Links.PartTwo(m, intended));
    var title := UnescapeHtml(RestoreSlash(st, sub));
    var c := Links.AddCategory(Links.Categories(st.categoryList, st.backlinks, st.categoryBar),
                               env.database, env.docName, title, sub, blur, env.urlPas(title));
    st.(categoryList := c.list, backlinks := c.backlinks, categoryBar := c.bar)
  }

  /** The text shown for a link: `linkData[1] || ""`. */
  function Caption(m: Links.LinkMatch, intended: bool): string {
    var p := Links.PartTwo(m, intended);
    if p.Some? then p.value else ""
  }

  /** The outside-address handler. */
  function WebLink(st: State, env: Env, main: string, m: Links.LinkMatch, original: string, intended: bool): (r: (State, string))
    ensures r.0.footnotes == st.footnotes && r.0.categoryList == st.categoryList
    ensures r.0.count == st.count + 1
  {
    var title := RestoreSlash(st, main);
    var href := ReplaceAll(UnescapeHtml(title), "\"", "&quot;");
    var caption := Caption(m, intended);
    var shown := if caption != "" then "" else original;
    var a := "<a class=\"opennamu_link_out\" target=\"_blank\" title=\"" + title + "\" href=\"" + href + "\">" + shown + "</a>";
    var (st1, dataName) := Store(st, a, "", m.full, "render");
    (st1, "<" + dataName + ">" + caption + "</" + dataName + ">")
  }

  /** The fragment part of an internal link's address. As written it is
      the match array turned into text (`#f,f`); the encoded fragment the
      handler computes beside it is what was meant. */
  function SharpHref(env: Env, frag: Option<string>, intended: bool): string {
    if frag.None? then ""
    else if intended then "#" + env.urlPas(UnescapeHtml(frag.value))
    else "#" + frag.value + "," + frag.value
  }

  /** A fragment `f` without `&`: as written the address ends in `#f,f`;
      meant is `#` and the encoded fragment. */
  lemma SharpHrefExample(env: Env, f: string)
    requires '&' !in f
    ensures SharpHref(env, Some(f), false) == "#" + f + "," + f
    ensures SharpHref(env, Some(f), true) == "#" + env.urlPas(f)
  {
  }

  /** The `#([^#]+)$` match of the internal handler, `&#x27;` hidden. */
  function Fragment(s: string): Option<string> {
    var p := ReplaceAll(s, "&#x27;", "<link_single>");
    var i := Links.LastIndexOf(p, '#');
    if i.Some? && i.value + 1 < |p| then Some(p[i.value + 1..]) else None
  }

  /** The page an internal link points to: the canonical name without its
      fragment, placeholders restored, unescaped. */
  function InternalTarget(st: State, env: Env, main: string): string {
    UnescapeHtml(RestoreSlash(st, Links.Unfragmented(Links.Canonical(main, env.docName))))
  }

  /** The opening value of an internal link's placeholder. */
  function InternalAnchor(env: Env, target: string, frag: Option<string>, shown: string, intended: bool): string {
    var sharpText := if frag.Some? then "#" + frag.value + "," + frag.value else "";
    var title := EscapeHtml(target + sharpText);
    var exist := if target != "" && target !in env.database then "opennamu_not_exist_link" else "";
    var same := if target == env.docName && env.docInclude == "" then "opennamu_same_link" else "";
    var u := env.urlPas(target);
    var href := if u != "" then "/w/" + u else u;
    "<a class=\"" + exist + " " + same + "\" title=\"" + title + "\" href=\"" + href + SharpHref(env, frag, intended) + "\">" + shown + "</a>"
  }

  /** The internal-link handler: its backlinks and placeholder. */
  function InternalLink(st: State, env: Env, main: string, m: Links.LinkMatch, original: string, intended: bool): (r: (State, string))
    ensures r.0.footnotes == st.footnotes && r.0.categoryList == st.categoryList
    ensures r.0.count == st.count + 1
  {
    var target := InternalTarget(st, env, main);
    var caption := Caption(m, intended);
    var shown := if caption != "" then "" else original;
    var a := InternalAnchor(env, target, Fragment(Links.Canonical(main, env.docName)), shown, intended);
    var st1 := st.(backlinks := st.backlinks + Links.InternalBacklinks(env.database, env.docName, target));
    var (st2, dataName) := Store(st1, a, "", m.full, "render");
    (st2, "<" + dataName + ">" + caption + "</" + dataName + ">")
  }

  /** The handler chain after the file handler, on target `main`. `None`
      is the inter-wiki handler throwing. */
  function Handle(st: State, env: Env, main: string, m: Links.LinkMatch, original: string, intended: bool): (r: Option<(State, string)>)
    ensures intended ==> r.Some?
    ensures r.Some? ==> r.value.0.footnotes == st.footnotes
  {
    match Links.BranchOf(main)
    case Category => Some((CategoryLink(st, env, main, m, intended), ""))
    case Inter => if Links.InterLink(Links.InterRest(main), intended) == Links.Removed then Some((st, "")) else None
    case Web => Some(WebLink(st, env, main, m, original, intended))
    case Internal => Some(InternalLink(st, env, main, m, original, intended))
  }

  /** One turn of the link loop on the first remaining link: the new
      state, what the links it consumed become, and how many it consumed.
      As written a file link runs a second handler, whose replacement
      takes the place of the next link. */
  function LinkStep(st: State, env: Env, links: seq<Links.LinkMatch>, intended: bool): (r: Option<(State, seq<string>, nat)>)
    requires links != []
    ensures r.Some? ==> 1 <= r.value.2 <= |links| && |r.value.1| == r.value.2
    ensures intended ==> r.Some? && r.value.2 == 1
  {
    var m := links[0];
    if Links.IsFileLink(m.main) then
      var (st1, rep, f) := FileLink(st, env, m, intended);
      if intended then Some((st1, [rep], 1))
      else
        match Handle(st1, env, f.target, m, f.original, intended)
        case None => None
        case Some((st2, rep2)) => if |links| > 1 then Some((st2, [rep, rep2], 2)) else Some((st2, [rep], 1))
    else
      match Handle(st, env, m.main, m, m.main, intended)
      case None => None
      case Some((st1, rep)) => Some((st1, [rep], 1))
  }

  /** A turn of the link loop on the links left: the new state, what the
      links it consumed become, and how many it consumed, or `None` when a
      handler throws. */
  type LinkTurner = (State, seq<Links.LinkMatch>) -> Option<(State, seq<string>, nat)>

  /** A turn consumes at least one of the links left and at most all. */
  ghost predicate Consumes(step: LinkTurner) {
    forall st, ls :: ls != [] && step(st, ls).Some? ==> 1 <= step(st, ls).value.2 <= |ls|
  }

  /** The turn of `manageLink`. */
  function Turner(env: Env, intended: bool): LinkTurner {
    (st, ls) => if ls == [] then None else LinkStep(st, env, ls, intended)
  }

  lemma TurnerConsumes(env: Env, intended: bool)
    ensures Consumes(Turner(env, intended))
  {
    forall st, ls | ls != [] && Turner(env, intended)(st, ls).Some?
      ensures 1 <= Turner(env, intended)(st, ls).value.2 <= |ls|
    {
      var r := LinkStep(st, env, ls, intended);
      assert Turner(env, intended)(st, ls) == r;
    }
  }

  lemma TurnerStep(env: Env, intended: bool, st: State, ls: seq<Links.LinkMatch>)
    requires ls != []
    ensures Turner(env, intended)(st, ls) == LinkStep(st, env, ls, intended)
  {
  }

  /** The link loop after its first `t` turns: the state, what the links
      consumed so far become, in order, and how many were consumed, or
      `None` once a handler has thrown. A turn with no link left does
      nothing. */
  ghost function LinkRun(st: State, links: seq<Links.LinkMatch>, t: nat, step: LinkTurner): (r: Option<(State, seq<string>, nat)>)
    requires Consumes(step)
    ensures r.Some? ==> r.value.2 <= |links|
    decreases t
  {
    if t == 0 then Some((st, [], 0))
    else
      match LinkRun(st, links, t - 1, step)
      case None => None
      case Some((st1, reps, pos)) =>
        if pos == |links| then Some((st1, reps, pos))
        else
          match step(st1, links[pos..])
          case None => None
          case Some((st2, more, n)) => Some((st2, reps + more, pos + n))
  }

  /** The whole link pass: the budget allows `LinkBudget + 1` turns. */
  ghost function LinkPass(st: State, env: Env, links: seq<Links.LinkMatch>, intended: bool): Option<(State, seq<string>, nat)> {
    TurnerConsumes(env, intended);
    LinkRun(st, links, Links.LinkBudget + 1, Turner(env, intended))
  }

  /** Each handler keeps the state consistent. */
  lemma HandleConsistent(st: State, env: Env, main: string, m: Links.LinkMatch, original: string, intended: bool)
    requires Consistent(st)
    ensures var r := Handle(st, env, main, m, original, intended);
            r.Some? ==> Consistent(r.value.0)
  {
    match Links.BranchOf(main)
    case Category =>
    case Inter =>
    case Web =>
      var title := RestoreSlash(st, main);
      var caption := Caption(m, intended);
      var shown := if caption != "" then "" else original;
      var a := "<a class=\"opennamu_link_out\" target=\"_blank\" title=\"" + title + "\" href=\""
               + ReplaceAll(UnescapeHtml(title), "\"", "&quot;") + "\">" + shown + "</a>";
      StoreKeeps(st, a, "", m.full, "render");
    case Internal =>
      var target := InternalTarget(st, env, main);
      var caption := Caption(m, intended);
      var shown := if caption != "" then "" else original;
      var a := InternalAnchor(env, target, Fragment(Links.Canonical(main, env.docName)), shown, intended);
      StoreKeeps(st.(backlinks := st.backlinks + Links.InternalBacklinks(env.database, env.docName, target)), a, "", m.full, "render");
  }

  lemma FileLinkConsistent(st: State, env: Env, m: Links.LinkMatch, intended: bool)
    requires Consistent(st)
    ensures Consistent(FileLink(st, env, m, intended).0)
  {
    var out := Links.IsOutFile(m.main);
    var f := FileTargetOf(st, env, m.main);
    var st1 := if out then st else st.(backlinks := st.backlinks + Links.FileBacklinks(env.database, env.docName, f.name));
    var ab := FileAnchor(env, m.main, Links.FileOptions(Links.PartTwo(m, intended), intended), f, out);
    StoreKeeps(st1, ab.0, ab.1, m.full, "render");
  }

  lemma LinkStepConsistent(st: State, env: Env, links: seq<Links.LinkMatch>, intended: bool)
    requires Consistent(st) && links != []
    ensures var r := LinkStep(st, env, links, intended);
            r.Some? ==> Consistent(r.value.0)
  {
    var m := links[0];
    if Links.IsFileLink(m.main) {
      FileLinkConsistent(st, env, m, intended);
      var f := FileLink(st, env, m, intended);
      HandleConsistent(f.0, env, f.2.target, m, f.2.original, intended);
    } else {
      HandleConsistent(st, env, m.main, m, m.main, intended);
    }
  }

  /** A turn of `manageLink` keeps the state consistent. */
  ghost predicate KeepsConsistent(step: LinkTurner) {
    forall st, ls :: Consistent(st) && step(st, ls).Some? ==> Consistent(step(st, ls).value.0)
  }

  lemma TurnerKeepsConsistent(env: Env, intended: bool)
    ensures KeepsConsistent(Turner(env, intended))
  {
    forall st, ls | Consistent(st) && Turner(env, intended)(st, ls).Some?
      ensures Consistent(Turner(env, intended)(st, ls).value.0)
    {
      LinkStepConsistent(st, env, ls, intended);
    }
  }

  /** The link pass keeps the state consistent: placeholders are fresh and
      no category is listed twice. */
  lemma {:induction false} LinkRunConsistent(st: State, links: seq<Links.LinkMatch>, t: nat, step: LinkTurner)
    requires Consumes(step) && KeepsConsistent(step) && Consistent(st)
    ensures var r := LinkRun(st, links, t, step);
            r.Some? ==> Consistent(r.value.0)
    decreases t
  {
    if t > 0 {
      LinkRunConsistent(st, links, t - 1, step);
    }
  }

  /** A turn that succeeds gives one replacement per link it consumes. */
  ghost predicate OnePerLink(step: LinkTurner) {
    forall st, ls :: step(st, ls).Some? ==> |step(st, ls).value.1| == step(st, ls).value.2
  }

  /** Every link consumed gets exactly one replacement. */
  lemma {:induction false} LinkRunLength(st: State, links: seq<Links.LinkMatch>, t: nat, step: LinkTurner)
    requires Consumes(step) && OnePerLink(step)
    ensures var r := LinkRun(st, links, t, step);
            r.Some? ==> |r.value.1| == r.value.2
    decreases t
  {
    if t > 0 {
      LinkRunLength(st, links, t - 1, step);
    }
  }

  /** One more turn, while links are left, when the turn succeeds. */
  lemma LinkRunNext(st: State, links: seq<Links.LinkMatch>, t: nat, step: LinkTurner,
                    cur: State, done: seq<string>, i: nat, next: State, more: seq<string>, n: nat)
    requires Consumes(step) && i < |links|
    requires LinkRun(st, links, t, step) == Some((cur, done, i))
    requires step(cur, links[i..]) == Some((next, more, n))
    ensures LinkRun(st, links, t + 1, step) == Some((next, done + more, i + n))
  {
  }

  /** One more turn, while links are left, when a handler throws. */
  lemma LinkRunBreaks(st: State, links: seq<Links.LinkMatch>, t: nat, step: LinkTurner,
                      cur: State, done: seq<string>, i: nat)
    requires Consumes(step) && i < |links|
    requires LinkRun(st, links, t, step) == Some((cur, done, i))
    requires step(cur, links[i..]).None?
    ensures LinkRun(st, links, t + 1, step).None?
  {
  }

  /** Once every link is consumed, further turns change nothing. */
  lemma {:induction false} LinkRunIdle(st: State, links: seq<Links.LinkMatch>, t: nat, u: nat, step: LinkTurner)
    requires Consumes(step) && t <= u
    requires LinkRun(st, links, t, step).Some? && LinkRun(st, links, t, step).value.2 == |links|
    ensures LinkRun(st, links, u, step) == LinkRun(st, links, t, step)
    decreases u
  {
    if t < u {
      LinkRunIdle(st, links, t, u - 1, step);
    }
  }

  /** Once a handler has thrown, the pass has failed. */
  lemma {:induction false} LinkRunThrown(st: State, links: seq<Links.LinkMatch>, t: nat, u: nat, step: LinkTurner)
    requires Consumes(step) && t <= u && LinkRun(st, links, t, step).None?
    ensures LinkRun(st, links, u, step).None?
    decreases u
  {
    if t < u {
      LinkRunThrown(st, links, t, u - 1, step);
    }
  }

  /** A turn that never throws and consumes one link at a time. */
  ghost predicate OneAtATime(step: LinkTurner) {
    forall st, ls :: ls != [] ==> step(st, ls).Some? && step(st, ls).value.2 == 1
  }

  /** When every turn consumes one link and none throws, `t` turns consume
      exactly the first `t` links (or all of them). */
  lemma {:induction false} SteadyLinkRun(st: State, links: seq<Links.LinkMatch>, t: nat, step: LinkTurner)
    requires Consumes(step) && OneAtATime(step)
    ensures LinkRun(st, links, t, step).Some?
    ensures LinkRun(st, links, t, step).value.2 == Min(t, |links|)
    decreases t
  {
    if t > 0 {
      SteadyLinkRun(st, links, t - 1, step);
    }
  }

  /** With the handlers as meant, the pass never throws and turns exactly
      the first `LinkBudget + 1` links (or all of them) into placeholders. */
  lemma IntendedLinkPass(st: State, env: Env, links: seq<Links.LinkMatch>)
    ensures LinkPass(st, env, links, true).Some?
    ensures |LinkPass(st, env, links, true).value.1| == Min(|links|, Links.LinkBudget + 1)
  {
    var step := Turner(env, true);
    TurnerConsumes(env, true);
    forall st', ls | ls != [] ensures step(st', ls).Some? && step(st', ls).value.2 == 1 {
      var r := LinkStep(st', env, ls, true);
    }
    forall st', ls | step(st', ls).Some? ensures |step(st', ls).value.1| == step(st', ls).value.2 {
      if ls != [] {
        var r := LinkStep(st', env, ls, true);
      }
    }
    SteadyLinkRun(st, links, Links.LinkBudget + 1, step);
    LinkRunLength(st, links, Links.LinkBudget + 1, step);
  }

  /** As written, an inside file link followed by another link consumes
      both in one turn: the second link is never looked at, and its
      replacement is made from the file link's own target. */
  lemma AsWrittenFileSwallowsNext(st: State, env: Env, links: seq<Links.LinkMatch>, other: Links.LinkMatch)
    requires |links| >= 2
    requires Links.IsFileLink(links[0].main) && !Links.IsOutFile(links[0].main)
    ensures var r := LinkStep(st, env, links, false);
            && r.Some? && r.value.2 == 2
            && r == LinkStep(st, env, [links[0], other] + links[2..], false)
  {
    FileStepTakesTwo(st, env, links);
    var swapped := [links[0], other] + links[2..];
    assert swapped[0] == links[0] && |swapped| == |links|;
    LinkStepSeesHead(st, env, links, swapped, false);
  }

  /** As written, an inside file link takes the next link with it. */
  lemma FileStepTakesTwo(st: State, env: Env, links: seq<Links.LinkMatch>)
    requires |links| >= 2
    requires Links.IsFileLink(links[0].main) && !Links.IsOutFile(links[0].main)
    ensures LinkStep(st, env, links, false).Some? && LinkStep(st, env, links, false).value.2 == 2
  {
    var m := links[0];
    var f := FileLink(st, env, m, false);
    FileTargetInside(st, env, m);
    InsideHandled(f.0, env, f.2.target, m, f.2.original);
    FileStepHandled(st, env, links);
  }

  /** As written, the target an inside file link hands on is an inside one. */
  lemma FileTargetInside(st: State, env: Env, m: Links.LinkMatch)
    requires Links.IsFileLink(m.main) && !Links.IsOutFile(m.main)
    ensures Links.BranchOf(FileLink(st, env, m, false).2.target) == Links.Internal
  {
    var f := FileLink(st, env, m, false);
    Links.FileLinkFallsThrough(m.main, env.urlPas(env.sha224(f.2.original)), f.2.name, env.docName);
  }

  lemma InsideHandled(st: State, env: Env, main: string, m: Links.LinkMatch, original: string)
    requires Links.BranchOf(main) == Links.Internal
    ensures Handle(st, env, main, m, original, false).Some?
  {
  }

  /** When the second handler does not throw, a file link's turn takes two links. */
  lemma FileStepHandled(st: State, env: Env, links: seq<Links.LinkMatch>)
    requires |links| >= 2 && Links.IsFileLink(links[0].main)
    requires var f := FileLink(st, env, links[0], false);
      Handle(f.0, env, f.2.target, links[0], f.2.original, false).Some?
    ensures LinkStep(st, env, links, false).Some? && LinkStep(st, env, links, false).value.2 == 2
  {
  }

  /** A turn looks only at the first link and at whether another follows. */
  lemma LinkStepSeesHead(st: State, env: Env, links: seq<Links.LinkMatch>, others: seq<Links.LinkMatch>, intended: bool)
    requires links != [] && others != [] && links[0] == others[0]
    requires (|links| > 1) == (|others| > 1)
    ensures LinkStep(st, env, links, intended) == LinkStep(st, env, others, intended)
  {
  }

  // ---------------------------------------------------------------------
  // The renderer object

  class NamuMark {
    var storage: map<string, string>
    var count: nat
    var footnotes: Footnote.Registry
    var categoryList: seq<string>
    var backlinks: seq<Links.Backlink>
    var categoryBar: string
    var aLinkCount: nat
    const env: Env

    function Snapshot(): State
      reads this
    {
      State(storage, count, footnotes, categoryList, backlinks, categoryBar)
    }

    predicate Valid()
      reads this
    {
      Consistent(Snapshot())
    }

    constructor(env: Env)
      ensures Snapshot() == Initial && aLinkCount == 0 && Valid()
      ensures this.env.docName == env.docName && this.env.docInclude == env.docInclude
      ensures this.env.database == env.database && this.env.darkmode == env.darkmode
    {
      storage := map[];
      count := 0;
      footnotes := Footnote.Empty;
      categoryList := [];
      backlinks := [];
      categoryBar := "";
      aLinkCount := 0;
      this.env := env;
    }

    /** `getToolDataStorage`. */
    method GetToolDataStorage(a: string, b: string, c: string, doType: string) returns (name: string)
      modifies this
      ensures (Snapshot(), name) == Store(old(Snapshot()), a, b, c, doType)
      ensures old(Valid()) ==> Valid()
      ensures aLinkCount == old(aLinkCount)
    {
      if Valid() {
        StoreKeeps(Snapshot(), a, b, c, doType);
      }
      count := count + 1;
      if doType == "render" {
        name := RenderKey(count);
        storage := storage[name := a];
        storage := storage["/" + name := b];
        storage := storage["revert_" + name := c];
      } else {
        name := SlashKey(count);
        storage := storage[name := a];
      }
    }

    /** `getToolDataRestore`: at most `3 * count + 1` replacements of the
        first tag of the kind `doType` selects. */
    method GetToolDataRestore(data: string, doType: string) returns (r: string)
      ensures r == Restore(storage, data, ScopeOf(doType), 3 * count)
    {
      var scope := ScopeOf(doType);
      var budget: int := count * 3;
      r := data;
      while FindTag(r, scope, 0).Some? && budget >= 0
        invariant budget >= -1
        invariant Restore(storage, r, scope, budget) == Restore(storage, data, scope, 3 * count)
        decreases budget + 1
      {
        r := RestoreStep(storage, r, FindTag(r, scope, 0).value);
        budget := budget - 1;
      }
    }

    /** `getToolFootnoteMake`: the list of the registered footnotes in
        enumeration order; the registry is emptied. */
    method GetToolFootnoteMake() returns (data: string)
      requires Footnote.Valid(footnotes)
      modifies this
      ensures data == Footnote.Make(old(footnotes), env.docInclude)
      ensures Snapshot() == old(Snapshot()).(footnotes := Footnote.Empty)
      ensures old(Valid()) ==> Valid()
      ensures aLinkCount == old(aLinkCount)
    {
      data := FootnoteList(footnotes, env.docInclude);
      footnotes := Footnote.Empty;
    }

    /** `manageFootnote` on the markers of the text, in order: what each
        handled marker becomes, and the list appended at the end. */
    method ManageFootnote(marks: seq<FootMark>) returns (texts: seq<string>, tail: string)
      requires Valid()
      modifies this
      ensures Snapshot() == FootnotePass(old(Snapshot()), env, marks).0
      ensures texts == FootnotePass(old(Snapshot()), env, marks).1
      ensures tail == FootnotePass(old(Snapshot()), env, marks).2
      ensures Valid()
    {
      FootnotePassEmpties(Snapshot(), env, marks);
      texts := FootnoteMarks(marks);
      tail := GetToolFootnoteMake();
    }

    /** The marker loop of `manageFootnote`. */
    method FootnoteMarks(marks: seq<FootMark>) returns (texts: seq<string>)
      requires Footnote.Valid(Snapshot().footnotes)
      modifies this
      ensures Snapshot() == FootnoteRun(old(Snapshot()), env, marks, FootnoteTurns(marks)).0
      ensures texts == ShownAll(FootnoteRun(old(Snapshot()), env, marks, FootnoteTurns(marks)).1, env.docInclude)
    {
      ghost var start := Snapshot();
      ghost var pieces: seq<Piece> := [];
      var num := 0;
      var budget: int := FootnoteBudget;
      texts := [];
      while num < |marks| && budget >= 0
        invariant 0 <= num <= |marks| && num <= FootnoteBudget + 1 && budget == FootnoteBudget - num
        invariant Snapshot() == FootnoteRun(start, env, marks, num).0
        invariant pieces == FootnoteRun(start, env, marks, num).1
        invariant texts == ShownAll(pieces, env.docInclude)
        decreases |marks| - num
      {
        ghost var p := FootnoteStep(Snapshot(), env, marks[num], num + 1).1;
        var text := FootnoteTurn(marks[num], num + 1);
        assert (pieces + [p])[..|pieces|] == pieces;
        texts := texts + [text];
        pieces := pieces + [p];
        budget := budget - 1;
        num := num + 1;
      }
      TurnsAtExit(marks, num);
    }

    /** One marker of `manageFootnote`, with ordinal `num`. */
    method FootnoteTurn(m: FootMark, num: nat) returns (text: string)
      requires Footnote.Valid(Snapshot().footnotes)
      modifies this
      ensures Snapshot() == FootnoteStep(old(Snapshot()), env, m, num).0
      ensures text == Shown(FootnoteStep(old(Snapshot()), env, m, num).1, env.docInclude)
    {
      match m
      case ListHere =>
        text := GetToolFootnoteMake();
      case Cite(_, _, full) =>
        var html := RegisterCite(m, num);
        var dataName := GetToolDataStorage(html, "", full, "render");
        text := "<" + dataName + "></" + dataName + ">";
    }

    /** The registration half of a citation's turn: the note is added to
        the registry and the reference the text keeps is built. */
    method RegisterCite(m: FootMark, num: nat) returns (html: string)
      requires m.Cite? && Footnote.Valid(footnotes)
      modifies this
      ensures html == CiteRef(old(footnotes), env.docInclude, m.explicit, num)
      ensures Snapshot() == old(Snapshot()).(footnotes := Footnote.Register(old(footnotes), CiteNote(m, num)))
    {
      var numStr := NatToString(num);
      var name := if m.explicit != "" then m.explicit else numStr;
      if name in footnotes.entries {
        var e := footnotes.entries[name];
        footnotes := Footnote.Registry(footnotes.keys, footnotes.entries[name := Footnote.Entry(e.list + [numStr], e.data)]);
        html := FootnoteRef(env.docInclude, e.list[0], numStr, name + " (" + numStr + ")");
      } else {
        footnotes := Footnote.Registry(footnotes.keys + [name], footnotes.entries[name := Footnote.Entry([numStr], m.text)]);
        html := FootnoteRef(env.docInclude, numStr, numStr, name + (if m.explicit != "" then " (" + numStr + ")" else ""));
      }
    }

    /** `manageLink` on the links of the text, in order. `ok` is false when
        a handler throws; otherwise the state and what the consumed links
        become are those of `LinkPass`, and the state stays consistent. */
    method ManageLink(links: seq<Links.LinkMatch>, intended: bool) returns (reps: seq<string>, ok: bool)
      requires Valid()
      modifies this
      ensures ok <==> LinkPass(old(Snapshot()), env, links, intended).Some?
      ensures ok ==> Snapshot() == LinkPass(old(Snapshot()), env, links, intended).value.0
                     && reps == LinkPass(old(Snapshot()), env, links, intended).value.1
      ensures ok ==> Valid()
    {
      TurnerConsumes(env, intended);
      TurnerKeepsConsistent(env, intended);
      LinkRunConsistent(Snapshot(), links, Links.LinkBudget + 1, Turner(env, intended));
      reps, ok := LinkLoop(links, intended);
    }

    /** The loop of `manageLink`: a turn while links are left and the
        budget, decremented every turn, is not below zero. */
    method LinkLoop(links: seq<Links.LinkMatch>, intended: bool) returns (reps: seq<string>, ok: bool)
      modifies this
      ensures ok <==> LinkPass(old(Snapshot()), env, links, intended).Some?
      ensures ok ==> Snapshot() == LinkPass(old(Snapshot()), env, links, intended).value.0
                     && reps == LinkPass(old(Snapshot()), env, links, intended).value.1
    {
      ghost var step := Turner(env, intended);
      TurnerConsumes(env, intended);
      ghost var start := Snapshot();
      ghost var total: nat := Links.LinkBudget + 1;
      ghost var goal := LinkRun(start, links, total, step);
      assert goal == LinkPass(start, env, links, intended);
      ghost var turns: nat := 0;
      var budget: int := Links.LinkBudget;
      var i := 0;
      reps := [];
      ok := true;
      while i < |links| && budget >= 0
        invariant 0 <= i <= |links| && budget >= -1 && turns == Links.LinkBudget - budget && turns <= total
        invariant LinkRun(start, links, turns, step).Some?
        invariant LinkRun(start, links, turns, step).value.0 == Snapshot()
        invariant LinkRun(start, links, turns, step).value.1 == reps
        invariant LinkRun(start, links, turns, step).value.2 == i
        decreases |links| - i
      {
        TurnerStep(env, intended, Snapshot(), links[i..]);
        var n, turn := LinkAt(links, i, intended, start, turns, reps, step);
        if n == 0 {
          LinkRunThrown(start, links, turns + 1, total, step);
          ok := false;
          return;
        }
        reps := reps + turn;
        i := i + n;
        budget := budget - 1;
        turns := turns + 1;
      }
      if i == |links| {
        LinkRunIdle(start, links, turns, total, step);
      } else {
        assert turns == total;
      }
    }

    /** Turn `t + 1` of `manageLink`, after `t` turns of `step` have
        consumed the first `i` links and given `done`: the loop after it is
        `LinkRun` one turn further. */
    method LinkAt(links: seq<Links.LinkMatch>, i: nat, intended: bool,
                  ghost start: State, ghost t: nat, ghost done: seq<string>, ghost step: LinkTurner)
      returns (n: nat, reps: seq<string>)
      requires i < |links| && Consumes(step)
      requires LinkRun(start, links, t, step) == Some((Snapshot(), done, i))
      requires step(Snapshot(), links[i..]) == LinkStep(Snapshot(), env, links[i..], intended)
      modifies this
      ensures n == 0 ==> LinkRun(start, links, t + 1, step).None?
      ensures n > 0 ==> LinkRun(start, links, t + 1, step) == Some((Snapshot(), done + reps, i + n))
    {
      ghost var before := Snapshot();
      n, reps := LinkTurn(links[i..], intended);
      if n == 0 {
        LinkRunBreaks(start, links, t, step, before, done, i);
      } else {
        assert LinkStep(before, env, links[i..], intended) == Some((Snapshot(), reps, n));
        LinkRunNext(start, links, t, step, before, done, i, Snapshot(), reps, n);
      }
    }

    /** One turn of `manageLink`: the number of links consumed, 0 when a
        handler throws, and what they become. */
    method LinkTurn(links: seq<Links.LinkMatch>, intended: bool) returns (n: nat, reps: seq<string>)
      requires links != []
      modifies this
      ensures n == 0 <==> LinkStep(old(Snapshot()), env, links, intended).None?
      ensures n > 0 ==> Snapshot() == LinkStep(old(Snapshot()), env, links, intended).value.0
                        && reps == LinkStep(old(Snapshot()), env, links, intended).value.1
                        && n == LinkStep(old(Snapshot()), env, links, intended).value.2
    {
      var m := links[0];
      if Links.IsFileLink(m.main) {
        var f := FileLink(Snapshot(), env, m, intended);
        SetState(f.0);
        if intended {
          n, reps := 1, [f.1];
          return;
        }
        var h := Handle(Snapshot(), env, f.2.target, m, f.2.original, intended);
        if h.None? {
          n, reps := 0, [];
          return;
        }
        SetState(h.value.0);
        if |links| > 1 {
          n, reps := 2, [f.1, h.value.1];
        } else {
          n, reps := 1, [f.1];
        }
      } else {
        var h := Handle(Snapshot(), env, m.main, m, m.main, intended);
        if h.None? {
          n, reps := 0, [];
          return;
        }
        SetState(h.value.0);
        n, reps := 1, [h.value.1];
      }
    }

    /** Puts the fields in state `s`. */
    method SetState(s: State)
      modifies this
      ensures Snapshot() == s && aLinkCount == old(aLinkCount)
    {
      storage, count, footnotes := s.storage, s.count, s.footnotes;
      categoryList, backlinks, categoryBar := s.categoryList, s.backlinks, s.categoryBar;
    }

    /** The anchor fixer: the callback's counter lives in `aLinkCount`. */
    method FixAnchors(toks: seq<Finalize.Tok>) returns (out: seq<Finalize.Tok>)
      modifies this
      ensures out == Finalize.Fix(toks).out && aLinkCount == Finalize.Fix(toks).count
      ensures Snapshot() == old(Snapshot())
    {
      aLinkCount := 0;
      out := [];
      for i := 0 to |toks|
        invariant Finalize.Fix(toks[..i]) == Finalize.Run(aLinkCount, out)
        invariant Snapshot() == old(Snapshot())
      {
        assert toks[..i + 1][..i] == toks[..i];
        match toks[i]
        case Close =>
          if aLinkCount == 0 {
          } else if aLinkCount > 1 {
            aLinkCount := aLinkCount - 1;
          } else {
            aLinkCount := aLinkCount - 1;
            out := out + [toks[i]];
          }
        case Open(_) =>
          if aLinkCount > 0 {
            aLinkCount := aLinkCount + 1;
          } else {
            aLinkCount := aLinkCount + 1;
            out := out + [toks[i]];
          }
        case Text(_) =>
          out := out + [toks[i]];
      }
      assert toks[..|toks|] == toks;
    }
  }

  /** The loop of `getToolFootnoteMake` over the keys in enumeration
      order; the text is the list `Footnote.Make` specifies. */
  method FootnoteList(r: Footnote.Registry, inc: string) returns (data: string)
    requires Footnote.Valid(r)
    ensures data == Footnote.Make(r, inc)
  {
    Footnote.OrderFacts(r.keys);
    var ks := Footnote.Order(r.keys);
    assert forall k :: k in ks ==> k in r.keys by {
      forall k | k in ks ensures k in r.keys {
        assert k in multiset(ks);
      }
    }
    data := "";
    for i := 0 to |ks|
      invariant Footnote.MakeFrom(data, ks[i..], r.entries, inc) == Footnote.MakeFrom("", ks, r.entries, inc)
    {
      assert ks[i] in ks;
      var item := FootnoteItem(ks[i], r.entries[ks[i]], inc);
      var next := data + (if data == "" then Footnote.Open() else "<br>") + item;
      ghost var rest := ks[i..];
      assert rest[0] == ks[i] && rest[1..] == ks[i + 1..];
      assert Footnote.MakeFrom(data, rest, r.entries, inc) == Footnote.MakeFrom(next, rest[1..], r.entries, inc);
      data := next;
    }
    assert ks[|ks|..] == [];
    if data != "" {
      data := data + "</div>";
    }
  }

  /** One entry of the list: its back links when cited more than once,
      then its text. */
  method FootnoteItem(k: string, e: Footnote.Entry, inc: string) returns (data: string)
    requires |e.list| > 0
    ensures data == Footnote.Item(k, e, inc)
  {
    if |e.list| > 1 {
      data := "(" + k + ") ";
      for j := 0 to |e.list|
        invariant data == "(" + k + ") " + BackLinksUpTo(e.list, j, inc)
      {
        BackLinksStep(e.list, j, inc);
        data := data + Footnote.BackLink(e.list[j], inc);
      }
      assert e.list[..|e.list|] == e.list;
    } else {
      data := "<a id=\"" + inc + "fn_" + e.list[0] + "\" href=\"#" + inc + "rfn_" + e.list[0] + "\">(" + k + ") </a> ";
    }
    data := data + "<footnote_title target=\"" + inc + "fn_" + e.list[0] + "\">" + e.data + "</footnote_title>";
  }

  /** The slices of `Footnote.BackLinks` the inner loop builds up. */
  function BackLinksUpTo(list: seq<string>, j: nat, inc: string): string
    requires j <= |list|
  {
    Footnote.BackLinks(list[..j], inc)
  }

  lemma {:induction false} BackLinksStep(list: seq<string>, j: nat, inc: string)
    requires j < |list|
    ensures BackLinksUpTo(list, j + 1, inc) == BackLinksUpTo(list, j, inc) + Footnote.BackLink(list[j], inc)
  {
    BackLinksSnoc(list[..j], list[j], inc);
    assert list[..j + 1] == list[..j] + [list[j]];
  }

  /** The back links of a longer list end with the new one. */
  lemma {:induction false} BackLinksSnoc(list: seq<string>, b: string, inc: string)
    ensures Footnote.BackLinks(list + [b], inc) == Footnote.BackLinks(list, inc) + Footnote.BackLink(b, inc)
    decreases |list|
  {
    if list == [] {
      assert [b][1..] == [];
    } else {
      BackLinksSnoc(list[1..], b, inc);
      assert (list + [b])[0] == list[0] && (list + [b])[1..] == list[1..] + [b];
      var x, rest, y := Footnote.BackLink(list[0], inc), Footnote.BackLinks(list[1..], inc), Footnote.BackLink(b, inc);
      StringAssoc(x, rest, y);
    }
  }

  lemma StringAssoc(x: string, y: string, z: string)
    ensures x + (y + z) == (x + y) + z
  {
  }
}
