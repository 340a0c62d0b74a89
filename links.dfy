/** Link bookkeeping of `manageLink` (src/index.ts:1138-1495): which
    handler a `[[…]]` link reaches, the canonical form of an internal
    target, the category list with its backlinks and category bar, and the
    backlinks of internal and file links. The database is a set of titles,
    looked up by exact match. */
module Links {
  import opened Strings
  import Tools
  import Placeholders

  /** One match of the link expression: its whole text, group 1 (the
      target) and group 2 (the text after `|`), if present. */
  datatype LinkMatch = LinkMatch(full: string, main: string, second: Option<string>)

  /** What the handlers read as `linkData[1]`. As written that is group 1,
      which the expression never leaves empty; group 2 is meant. */
  function PartTwo(m: LinkMatch, intended: bool): Option<string> {
    if intended then m.second else Some(m.main)
  }

  /** `p` at the start of `s` under the `i` flag: ASCII letters match in
      either case, everything else exactly (`p` is written in lower case). */
  predicate StartsWithCI(s: string, p: string) {
    |s| >= |p| && forall i :: 0 <= i < |p| ==> Lower(s[i]) == p[i]
  }

  predicate EndsWithCI(s: string, p: string) {
    |s| >= |p| && forall i :: 0 <= i < |p| ==> Lower(s[|s| - |p| + i]) == p[i]
  }

  /** ASCII upper-case letters to lower case; every other character is kept. */
  function Lower(c: char): char {
    if 'A' <= c <= 'Z' then (c as int + 32) as char else c
  }

  /** The length of a prefix from `ps` that `s` starts with, or 0. */
  function PrefixLength(s: string, ps: seq<string>): (n: nat)
    ensures n <= |s|
  {
    if ps == [] then 0
    else if |ps[0]| > 0 && StartsWithCI(s, ps[0]) then |ps[0]|
    else PrefixLength(s, ps[1..])
  }

  // ---------------------------------------------------------------------
  // Which handler a link reaches

  /** `^(파일|file|외부|out):`. */
  predicate IsFileLink(main: string) {
    StartsWithCI(main, "파일:") || StartsWithCI(main, "file:") || IsOutFile(main)
  }

  /** `^(외부|out):`: a file shown from an outside address. */
  predicate IsOutFile(main: string) {
    StartsWithCI(main, "외부:") || StartsWithCI(main, "out:")
  }

  /** `^(분류|category):`. */
  predicate IsCategory(main: string) {
    StartsWithCI(main, "분류:") || StartsWithCI(main, "category:")
  }

  /** `^(?:inter|인터):([^:]+):`: a wiki prefix, then a non-empty name
      without `:`, then `:`. */
  predicate IsInter(main: string) {
    InterNameEnd(main, PrefixLength(main, ["inter:", "인터:"])).Some?
  }

  /** The position of the `:` that closes the wiki name starting at `n`. */
  function InterNameEnd(main: string, n: nat): (r: Option<nat>)
    requires n <= |main|
    ensures r.Some? ==> n < r.value < |main| && main[r.value] == ':'
  {
    if n == 0 then None
    else
      var j := Tools.FirstIndex(main[n..], ':');
      if j > 0 && n + j < |main| then Some(n + j) else None
  }

  /** The target after `replace(new RegExp(linkInterRegex, "g"), "")`: the
      flags given to `RegExp` replace the `i` flag, so only the exact
      lower-case `inter:` or `인터:` prefix with its name is removed. */
  function InterRest(main: string): string {
    var n := if StartsWith(main, "inter:") then 6 else if StartsWith(main, "인터:") then 3 else 0;
    var e := InterNameEnd(main, n);
    if e.Some? then main[e.value + 1..] else main
  }

  /** `^https?:\/\/`. */
  predicate IsWeb(main: string) {
    StartsWithCI(main, "http://") || StartsWithCI(main, "https://")
  }

  datatype Handler = File | Category | Inter | Web | Internal

  /** The `if … else if …` chain that follows the file handler. */
  function BranchOf(main: string): (h: Handler)
    ensures h != File
  {
    if IsCategory(main) then Category
    else if IsInter(main) then Inter
    else if IsWeb(main) then Web
    else Internal
  }

  /** The handlers one link runs, given the target the file handler leaves
      behind. As written the chain after the file handler starts with
      `if` (src/index.ts:1309), so a file link runs a second handler on
      that target; `else if` was meant. */
  function Route(main: string, afterFile: string, intended: bool): (r: seq<Handler>)
    ensures 1 <= |r| <= 2
    ensures r[0] == File <==> IsFileLink(main)
    ensures |r| == 2 <==> IsFileLink(main) && !intended
  {
    if IsFileLink(main) then (if intended then [File] else [File, BranchOf(afterFile)])
    else [BranchOf(main)]
  }

  /** `match(/\.([^.]+)$/)`: the extension after the last dot, if non-empty. */
  function Extension(name: string): (r: Option<string>)
    ensures r.Some? ==> |r.value| > 0 && '.' !in r.value && EndsWith(name, "." + r.value)
  {
    var i := LastIndexOf(name, '.');
    if i.Some? && i.value + 1 < |name| then
      assert name[i.value..] == "." + name[i.value + 1..];
      Some(name[i.value + 1..])
    else None
  }

  /** The index of the last `c` in `s`. */
  function LastIndexOf(s: string, c: char): (r: Option<nat>)
    ensures r.Some? ==> r.value < |s| && s[r.value] == c && c !in s[r.value + 1..]
    ensures r.None? ==> c !in s
    decreases |s|
  {
    if s == [] then None
    else if s[|s| - 1] == c then Some(|s| - 1)
    else
      var r := LastIndexOf(s[..|s| - 1], c);
      assert s == s[..|s| - 1] + [s[|s| - 1]];
      if r.Some? then
        assert s[r.value + 1..] == s[..|s| - 1][r.value + 1..] + [s[|s| - 1]];
        r
      else r
  }

  /** In `a + [c] + b` with no `c` in `b`, the last `c` is the one after `a`. */
  lemma {:induction false} LastIndexAt(a: string, c: char, b: string)
    requires c !in b
    ensures LastIndexOf(a + [c] + b, c) == Some(|a|)
    decreases |b|
  {
    var d := a + [c] + b;
    if b != [] {
      assert d[..|d| - 1] == a + [c] + b[..|b| - 1];
      assert b[|b| - 1] in b;
      LastIndexAt(a, c, b[..|b| - 1]);
    }
  }

  /** The target an inside file link leaves for the next handler: the image
      address, whose last part is the extension match array turned into
      text (`.png,png`, or `null` without an extension). `hashed` stands
      for the address-encoded digest of the name. */
  function ImageTarget(hashed: string, name: string): string {
    var ext := Extension(name);
    "/image/" + hashed + "." + (if ext.Some? then "." + ext.value + "," + ext.value else "null")
  }

  /** An inside file link always goes on to the internal-link handler, whose
      leading-`/` rule turns its image address into a subpage of the
      current document. */
  lemma FileLinkFallsThrough(main: string, hashed: string, name: string, docName: string)
    requires IsFileLink(main) && !IsOutFile(main)
    ensures var t := ImageTarget(hashed, name);
            && Route(main, t, false) == [File, Internal]
            && Route(main, t, true) == [File]
            && Canonical(t, docName) == docName + "/" + t[1..]
  {
    var t := ImageTarget(hashed, name);
    assert t[..1] == "/" && Lower(t[0]) == '/';
    NoPrefix(t, ["inter:", "인터:"]);
  }

  // ---------------------------------------------------------------------
  // File options (src/index.ts:1153-1196)

  /** The options of a file link: size, alignment, background and the
      colour scheme it is shown in. */
  datatype FileOpts = FileOpts(width: string, height: string, align: string, bgcolor: string, turn: string)

  const NoOpts := FileOpts("", "", "", "", "")

  /** White space and line terminators as `String.prototype.trim` removes them. */
  predicate IsJsSpace(c: char) {
    c == '\t' || c == '\n' || c == '\U{000B}' || c == '\U{000C}' || c == '\r' || c == ' ' || c == '\U{00A0}'
    || c == '\U{1680}' || ('\U{2000}' <= c <= '\U{200A}') || c == '\U{2028}' || c == '\U{2029}' || c == '\U{202F}'
    || c == '\U{205F}' || c == '\U{3000}' || c == '\U{FEFF}'
  }

  function TrimStart(s: string): (r: string)
    ensures |r| <= |s| && (r != [] ==> !IsJsSpace(r[0]))
  {
    if s != [] && IsJsSpace(s[0]) then TrimStart(s[1..]) else s
  }

  function TrimEnd(s: string): (r: string)
    ensures |r| <= |s| && (r != [] ==> !IsJsSpace(r[|r| - 1]))
  {
    if s != [] && IsJsSpace(s[|s| - 1]) then TrimEnd(s[..|s| - 1]) else s
  }

  function Trim(s: string): string { TrimEnd(TrimStart(s)) }

  /** Where an option starting at `j` ends: at the end of the text, a line
      terminator, or the next `&amp;`. */
  function RunEnd(s: string, j: nat): (e: nat)
    requires j <= |s|
    ensures j <= e <= |s|
    ensures forall k :: j <= k < e ==> !Placeholders.IsLineTerminator(s[k]) && !StartsWith(s[k..], "&amp;")
    decreases |s| - j
  {
    if j == |s| || Placeholders.IsLineTerminator(s[j]) || StartsWith(s[j..], "&amp;") then j
    else RunEnd(s, j + 1)
  }

  /** The matches of `/(?:^|&amp;) *((?:(?!&amp;).)+)/g` from position `i`,
      each as its whole text and its group: the first may start at the
      beginning of the text, every other one starts with `&amp;`. */
  function Datums(s: string, i: nat): (r: seq<(string, string)>)
    requires i <= |s|
    ensures forall k :: 0 <= k < |r| ==> |r[k].1| > 0
    decreases |s| - i
  {
    if i == |s| then []
    else
      var pre := if i == 0 && !StartsWith(s, "&amp;") then 0 else if StartsWith(s[i..], "&amp;") then 5 else -1;
      if pre < 0 || RunEnd(s, i + pre) == i + pre then Datums(s, i + 1)
      else [(s[i..RunEnd(s, i + pre)], s[i + pre..RunEnd(s, i + pre)])] + Datums(s, RunEnd(s, i + pre))
  }

  /** Every match after the first position starts with `&amp;`. */
  lemma {:induction false} LaterDatumsPrefixed(s: string, i: nat)
    requires 0 < i <= |s|
    ensures forall k :: 0 <= k < |Datums(s, i)| ==> StartsWith(Datums(s, i)[k].0, "&amp;")
    decreases |s| - i
  {
    if i < |s| {
      var pre := if StartsWith(s[i..], "&amp;") then 5 else -1;
      if pre < 0 || RunEnd(s, i + pre) == i + pre {
        LaterDatumsPrefixed(s, i + 1);
      } else {
        var e := RunEnd(s, i + pre);
        assert s[i..e][..5] == s[i..][..5];
        if e < |s| {
          LaterDatumsPrefixed(s, e);
        }
      }
    }
  }

  /** One `key=value` option; an unknown key or value changes nothing. */
  function ApplyFileOption(o: FileOpts, datum: string): FileOpts {
    match Tools.ParseOption(datum)
    case Code(_) => o
    case KeyValue(k, v) =>
      var key := Trim(k);
      var value := Trim(v);
      if key == "width" then o.(width := Tools.PxAddCheck(value))
      else if key == "height" then o.(height := Tools.PxAddCheck(value))
      else if key == "align" then (if value in {"center", "left", "right"} then o.(align := value) else o)
      else if key == "bgcolor" then o.(bgcolor := value)
      else if key == "theme" then (if value == "dark" || value == "light" then o.(turn := value) else o)
      else o
  }

  function ApplyFileOptions(o: FileOpts, ds: seq<(string, string)>, intended: bool): FileOpts
    decreases |ds|
  {
    if ds == [] then o
    else ApplyFileOptions(ApplyFileOption(o, if intended then ds[0].1 else ds[0].0), ds[1..], intended)
  }

  /** The options a file link reads from `partTwo`. As written each option
      is read from the whole match, so every option after the first keeps
      its `&amp;` and is not recognised; the group is meant. */
  function FileOptions(partTwo: Option<string>, intended: bool): FileOpts {
    if partTwo.None? || partTwo.value == "" then NoOpts
    else ApplyFileOptions(NoOpts, Datums(partTwo.value, 0), intended)
  }

  /** As written only the first match can set an option. */
  lemma OnlyFirstOption(s: string)
    requires s != ""
    ensures var ds := Datums(s, 0);
            FileOptions(Some(s), false) == if ds == [] then NoOpts else ApplyFileOption(NoOpts, ds[0].0)
  {
    var ds := Datums(s, 0);
    DatumsAfterFirst(s, 0);
    if ds != [] {
      PrefixedIgnored(ApplyFileOption(NoOpts, ds[0].0), ds[1..]);
    }
  }

  /** Two options `a&amp;b`: as written the second is read with its
      `&amp;` and ignored; read from its group it applies after the first. */
  lemma TwoOptions(a: string, b: string)
    requires a != [] && b != [] && '&' !in a && '&' !in b
    requires forall k :: 0 <= k < |a| ==> !Placeholders.IsLineTerminator(a[k])
    requires forall k :: 0 <= k < |b| ==> !Placeholders.IsLineTerminator(b[k])
    ensures FileOptions(Some(a + "&amp;" + b), false) == ApplyFileOption(NoOpts, a)
    ensures FileOptions(Some(a + "&amp;" + b), true) == ApplyFileOption(ApplyFileOption(NoOpts, a), b)
  {
    var ds := [(a, a), ("&amp;" + b, b)];
    TwoDatums(a, b);
    var o := ApplyFileOption(NoOpts, a);
    assert ApplyFileOptions(NoOpts, ds, false) == ApplyFileOptions(o, ds[1..], false);
    AmpKeyUnknown("&amp;" + b);
    assert ApplyFileOptions(o, ds[1..], false) == ApplyFileOptions(o, [], false);
    assert ApplyFileOptions(NoOpts, ds, true) == ApplyFileOptions(o, ds[1..], true);
  }

  lemma TwoDatums(a: string, b: string)
    requires a != [] && b != [] && '&' !in a && '&' !in b
    requires forall k :: 0 <= k < |a| ==> !Placeholders.IsLineTerminator(a[k])
    requires forall k :: 0 <= k < |b| ==> !Placeholders.IsLineTerminator(b[k])
    ensures Datums(a + "&amp;" + b, 0) == [(a, a), ("&amp;" + b, b)]
  {
    FirstDatum(a, b);
    SecondDatum(a, b);
  }

  lemma FirstDatum(a: string, b: string)
    requires a != [] && '&' !in a
    requires forall k :: 0 <= k < |a| ==> !Placeholders.IsLineTerminator(a[k])
    ensures Datums(a + "&amp;" + b, 0) == [(a, a)] + Datums(a + "&amp;" + b, |a|)
  {
    var s := a + "&amp;" + b;
    assert s[..|a|] == a && s[|a|..][..5] == "&amp;";
    assert !StartsWith(s, "&amp;") by { assert s[0] == a[0]; }
    RunEndAt(s, 0, |a|);
  }

  lemma SecondDatum(a: string, b: string)
    requires b != [] && '&' !in b
    requires forall k :: 0 <= k < |b| ==> !Placeholders.IsLineTerminator(b[k])
    ensures Datums(a + "&amp;" + b, |a|) == [("&amp;" + b, b)]
  {
    var s := a + "&amp;" + b;
    var n := |a|;
    assert s[n..] == "&amp;" + b;
    assert s[n + 5..] == b;
    RunEndAt(s, n + 5, |s|);
    LastDatum(s, n);
  }

  /** A match starting with `&amp;` that runs to the end is the last one. */
  lemma LastDatum(s: string, i: nat)
    requires i + 5 < |s| && StartsWith(s[i..], "&amp;") && RunEnd(s, i + 5) == |s|
    ensures Datums(s, i) == [(s[i..], s[i + 5..])]
  {
    assert i == 0 ==> s[i..] == s;
    assert s[i..|s|] == s[i..] && s[i + 5..|s|] == s[i + 5..];
    assert Datums(s, |s|) == [];
  }

  /** An option run ends at the first `&amp;` or at the end of the text. */
  lemma {:induction false} RunEndAt(s: string, j: nat, e: nat)
    requires j <= e <= |s|
    requires forall k :: j <= k < e ==> s[k] != '&' && !Placeholders.IsLineTerminator(s[k])
    requires e == |s| || StartsWith(s[e..], "&amp;")
    ensures RunEnd(s, j) == e
    decreases e - j
  {
    if j < e {
      assert !StartsWith(s[j..], "&amp;") by { assert s[j..][0] == s[j]; }
      RunEndAt(s, j + 1, e);
    }
  }

  /** The matches after the first one all come from a later position. */
  lemma {:induction false} DatumsAfterFirst(s: string, i: nat)
    requires i <= |s|
    ensures forall k :: 1 <= k < |Datums(s, i)| ==> StartsWith(Datums(s, i)[k].0, "&amp;")
    ensures i > 0 ==> forall k :: 0 <= k < |Datums(s, i)| ==> StartsWith(Datums(s, i)[k].0, "&amp;")
    decreases |s| - i
  {
    if i > 0 {
      LaterDatumsPrefixed(s, i);
    } else if i < |s| {
      var pre := if !StartsWith(s, "&amp;") then 0 else 5;
      if RunEnd(s, pre) == pre {
        DatumsAfterFirst(s, 1);
      } else {
        var e := RunEnd(s, pre);
        if e < |s| {
          LaterDatumsPrefixed(s, e);
        }
      }
    }
  }

  /** Options whose whole match starts with `&amp;` are never recognised. */
  lemma {:induction false} PrefixedIgnored(o: FileOpts, ds: seq<(string, string)>)
    requires forall k :: 0 <= k < |ds| ==> StartsWith(ds[k].0, "&amp;")
    ensures ApplyFileOptions(o, ds, false) == o
    decreases |ds|
  {
    if ds != [] {
      AmpKeyUnknown(ds[0].0);
      PrefixedIgnored(o, ds[1..]);
    }
  }

  lemma AmpKeyUnknown(d: string)
    requires StartsWith(d, "&amp;")
    ensures ApplyFileOption(NoOpts, d) == NoOpts
    ensures forall o :: ApplyFileOption(o, d) == o
  {
    match Tools.ParseOption(d)
    case Code(_) =>
    case KeyValue(k, v) =>
      var i := Tools.FirstIndex(d, '=');
      assert k == d[..i];
      assert d[0] == '&';
      assert Trim(k) == TrimEnd(k) by { assert !IsJsSpace(k[0]); }
      TrimEndKeepsFirst(k);
  }

  /** A match whose first character is no white space and starts none of
      `width`, `height`, `align`, `bgcolor`, `theme` sets no option. */
  lemma HeadKeyUnknown(d: string)
    requires d != [] && !IsJsSpace(d[0]) && d[0] !in "whabt"
    ensures forall o :: ApplyFileOption(o, d) == o
  {
    match Tools.ParseOption(d)
    case Code(_) =>
    case KeyValue(k, v) =>
      var i := Tools.FirstIndex(d, '=');
      assert k == d[..i];
      assert Trim(k) == TrimEnd(k) by { assert !IsJsSpace(k[0]); }
      TrimEndKeepsFirst(k);
  }

  /** The first match of a text that does not start with `&amp;` starts
      with the text's first character or with `&amp;`. */
  lemma FirstDatumHead(s: string)
    requires s != [] && !StartsWith(s, "&amp;")
    ensures var ds := Datums(s, 0);
            ds != [] ==> ds[0].0 != [] && (ds[0].0[0] == s[0] || StartsWith(ds[0].0, "&amp;"))
  {
    if RunEnd(s, 0) == 0 {
      LaterDatumsPrefixed(s, 1);
    }
  }

  /** As written, a file link reads its options from group 1, the target
      itself, so no option ever applies: the first match starts with the
      `file:`, `파일:`, `외부:` or `out:` prefix, and every later one with
      `&amp;`. */
  lemma AsWrittenNoFileOption(m: LinkMatch)
    requires IsFileLink(m.main)
    ensures FileOptions(PartTwo(m, false), false) == NoOpts
  {
    var s := m.main;
    FileLinkHead(s);
    OnlyFirstOption(s);
    var ds := Datums(s, 0);
    if ds != [] {
      FirstDatumHead(s);
      var d := ds[0].0;
      if StartsWith(d, "&amp;") {
        AmpKeyUnknown(d);
      } else {
        HeadKeyUnknown(d);
      }
    }
  }

  /** A file link target starts with a letter of its prefix. */
  lemma FileLinkHead(main: string)
    requires IsFileLink(main)
    ensures main != [] && !IsJsSpace(main[0]) && main[0] !in "whabt" && !StartsWith(main, "&amp;")
  {
    assert Lower(main[0]) in "f파외o";
    assert main[0] in "fF파외oO";
  }

  /** Trimming the end of a text that starts with no white space keeps
      its first character. */
  lemma {:induction false} TrimEndKeepsFirst(k: string)
    requires k != [] && !IsJsSpace(k[0])
    ensures TrimEnd(k) != [] && TrimEnd(k)[0] == k[0]
    decreases |k|
  {
    if IsJsSpace(k[|k| - 1]) {
      assert |k| > 1;
      TrimEndKeepsFirst(k[..|k| - 1]);
    }
  }

  // ---------------------------------------------------------------------
  // Internal targets (src/index.ts:1429-1440)

  /** `replace(/(\/[^/]+)$/g, "")`: the parent of a subpage name. */
  function Parent(docName: string): (r: string)
    ensures |r| <= |docName|
  {
    var i := LastIndexOf(docName, '/');
    if i.Some? && i.value + 1 < |docName| then docName[..i.value] else docName
  }

  /** The parent of `a/b` is `a` when `b` is a non-empty last part. */
  lemma ParentOfSubpage(a: string, b: string)
    requires |b| > 0 && '/' !in b
    ensures Parent(a + "/" + b) == a
  {
    LastIndexAt(a, '/', b);
    assert (a + "/" + b)[..|a|] == a;
  }

  /** The prefix rules for an internal target: `../` is the parent
      document, a leading `/` a subpage of the current one, and the
      `:분류:`, `:파일:` and `사용자:` spellings their canonical names. */
  function Canonical(main: string, docName: string): (r: string) {
    if main == "../" then Parent(docName)
    else if StartsWith(main, "/") then docName + "/" + main[1..]
    else if PrefixLength(main, [":분류:", ":category:"]) > 0 then
      "category:" + main[PrefixLength(main, [":분류:", ":category:"])..]
    else if PrefixLength(main, [":파일:", ":file:"]) > 0 then
      "file:" + main[PrefixLength(main, [":파일:", ":file:"])..]
    else if PrefixLength(main, ["사용자:"]) > 0 then "user:" + main[PrefixLength(main, ["사용자:"])..]
    else main
  }

  /** Each rule, one by one, and a target with none of the prefixes is kept. */
  lemma CanonicalRules(x: string, docName: string)
    ensures Canonical("../", docName) == Parent(docName)
    ensures Canonical("/" + x, docName) == docName + "/" + x
    ensures Canonical(":분류:" + x, docName) == "category:" + x
    ensures Canonical(":Category:" + x, docName) == "category:" + x
    ensures Canonical(":파일:" + x, docName) == "file:" + x
    ensures Canonical(":FILE:" + x, docName) == "file:" + x
    ensures Canonical("사용자:" + x, docName) == "user:" + x
    ensures |x| > 0 && x[0] != '/' && x[0] != ':' && x[0] != '사' && x != "../" ==> Canonical(x, docName) == x
  {
    CanonicalSlash(x, docName);
    CanonicalCategory(x, docName);
    CanonicalFile(x, docName);
    CanonicalUser(x, docName);
    if |x| > 0 && x[0] != '/' && x[0] != ':' && x[0] != '사' && x != "../" {
      CanonicalPlain(x, docName);
    }
  }

  lemma CanonicalSlash(x: string, docName: string)
    ensures Canonical("/" + x, docName) == docName + "/" + x
  {
    var m := "/" + x;
    assert m[..1] == "/" && m[1..] == x;
    assert m != "../" by { assert m[0] != "../"[0]; }
  }

  lemma CanonicalCategory(x: string, docName: string)
    ensures Canonical(":분류:" + x, docName) == "category:" + x
    ensures Canonical(":Category:" + x, docName) == "category:" + x
  {
    var m1 := ":분류:" + x;
    assert m1[4..] == x;
    assert m1 != "../" && !StartsWith(m1, "/") by { assert m1[0] == ':' && m1[..1][0] == ':'; }
    forall i | 0 <= i < 4 ensures Lower(m1[i]) == ":분류:"[i] {
      assert m1[i] == ":분류:"[i];
    }
    var m2 := ":Category:" + x;
    assert m2[10..] == x;
    assert m2 != "../" && !StartsWith(m2, "/") by { assert m2[0] == ':' && m2[..1][0] == ':'; }
    assert !StartsWithCI(m2, ":분류:") by { assert Lower(m2[1]) == 'c'; }
    forall i | 0 <= i < 10 ensures Lower(m2[i]) == ":category:"[i] {
      assert m2[i] == ":Category:"[i];
    }
    assert [":분류:", ":category:"][1..] == [":category:"];
    assert PrefixLength(m2, [":category:"]) == 10;
  }

  lemma CanonicalFile(x: string, docName: string)
    ensures Canonical(":파일:" + x, docName) == "file:" + x
    ensures Canonical(":FILE:" + x, docName) == "file:" + x
  {
    var m1 := ":파일:" + x;
    assert m1[4..] == x;
    assert m1 != "../" && !StartsWith(m1, "/") by { assert m1[0] == ':' && m1[..1][0] == ':'; }
    assert Lower(m1[1]) == '파';
    assert Tails([":분류:", ":category:"]) == ["분류:", "category:"];
    NoPrefix(m1[1..], ["분류:", "category:"]);
    NoPrefixShift(m1, [":분류:", ":category:"]);
    forall i | 0 <= i < 4 ensures Lower(m1[i]) == ":파일:"[i] {
      assert m1[i] == ":파일:"[i];
    }
    var m2 := ":FILE:" + x;
    assert m2[6..] == x;
    assert m2 != "../" && !StartsWith(m2, "/") by { assert m2[0] == ':' && m2[..1][0] == ':'; }
    assert Lower(m2[1]) == 'f';
    assert Tails([":분류:", ":category:"]) == ["분류:", "category:"];
    NoPrefix(m2[1..], ["분류:", "category:"]);
    NoPrefixShift(m2, [":분류:", ":category:"]);
    assert !StartsWithCI(m2, ":파일:") by { assert Lower(m2[1]) == 'f'; }
    forall i | 0 <= i < 6 ensures Lower(m2[i]) == ":file:"[i] {
      assert m2[i] == ":FILE:"[i];
    }
    assert [":파일:", ":file:"][1..] == [":file:"];
    assert PrefixLength(m2, [":file:"]) == 6;
  }

  lemma CanonicalUser(x: string, docName: string)
    ensures Canonical("사용자:" + x, docName) == "user:" + x
  {
    var m := "사용자:" + x;
    assert m[4..] == x;
    assert m != "../" && !StartsWith(m, "/") by { assert m[0] == '사' && m[..1][0] == '사'; }
    assert Lower(m[0]) == '사';
    NoPrefix(m, [":분류:", ":category:"]);
    NoPrefix(m, [":파일:", ":file:"]);
    forall i | 0 <= i < 4 ensures Lower(m[i]) == "사용자:"[i] {
      assert m[i] == "사용자:"[i];
    }
  }

  lemma CanonicalPlain(x: string, docName: string)
    requires |x| > 0 && x[0] != '/' && x[0] != ':' && x[0] != '사' && x != "../"
    ensures Canonical(x, docName) == x
  {
    assert !StartsWith(x, "/") by { assert x[..1][0] == x[0]; }
    assert Lower(x[0]) != ':' && Lower(x[0]) != '사';
    NoPrefix(x, [":분류:", ":category:"]);
    NoPrefix(x, [":파일:", ":file:"]);
    NoPrefix(x, ["사용자:"]);
  }

  /** Prefixes that all start with `s[0]` and whose rests do not match
      `s[1..]` do not match `s`. */
  lemma {:induction false} NoPrefixShift(s: string, ps: seq<string>)
    requires |s| > 0
    requires forall k :: 0 <= k < |ps| ==> |ps[k]| > 1 && Lower(s[0]) == ps[k][0]
    requires PrefixLength(s[1..], Tails(ps)) == 0
    ensures PrefixLength(s, ps) == 0
  {
    if ps != [] {
      if StartsWithCI(s, ps[0]) {
        forall i | 0 <= i < |ps[0]| - 1 ensures Lower(s[1..][i]) == ps[0][1..][i] {
          assert Lower(s[i + 1]) == ps[0][i + 1];
        }
        assert false;
      }
      assert Tails(ps)[1..] == Tails(ps[1..]);
      NoPrefixShift(s, ps[1..]);
    }
  }

  function Tails(ps: seq<string>): (r: seq<string>)
    requires forall k :: 0 <= k < |ps| ==> |ps[k]| > 0
    ensures |r| == |ps| && forall k :: 0 <= k < |ps| ==> r[k] == ps[k][1..]
  {
    if ps == [] then [] else [ps[0][1..]] + Tails(ps[1..])
  }

  /** A target whose first character starts none of the prefixes has none of them. */
  lemma {:induction false} NoPrefix(x: string, ps: seq<string>)
    requires |x| > 0
    requires forall k :: 0 <= k < |ps| ==> |ps[k]| > 0 && ps[k][0] != Lower(x[0])
    ensures PrefixLength(x, ps) == 0
  {
    if ps != [] {
      NoPrefix(x, ps[1..]);
    }
  }

  /** `replace(/#([^#]+)$/g, "")`: a final `#` fragment taken off. */
  function FragmentBase(s: string): (r: string)
    ensures |r| <= |s|
  {
    var i := LastIndexOf(s, '#');
    if i.Some? && i.value + 1 < |s| then s[..i.value] else s
  }

  /** The target of an internal link without its fragment. `&#x27;` is
      hidden behind `<link_single>` meanwhile, so its `#` does not count. */
  function Unfragmented(s: string): string {
    ReplaceAll(FragmentBase(ReplaceAll(s, "&#x27;", "<link_single>")), "<link_single>", "&#x27;")
  }

  /** A target without `#` is kept; `b#f` loses its fragment `f`. */
  lemma FragmentRules(s: string, b: string, f: string)
    requires '#' !in s && !Occurs("<link_single>", s)
    requires |f| > 0 && '#' !in f && '&' !in b + f && '<' !in b
    ensures Unfragmented(s) == s
    ensures Unfragmented(b + "#" + f) == b
  {
    AbsentPattern(s, "&#x27;", "<link_single>", '#');
    NotOccurring(s, "<link_single>", "&#x27;");
    FragmentDropped(b, f);
  }

  lemma FragmentDropped(b: string, f: string)
    requires |f| > 0 && '#' !in f && '&' !in b + f && '<' !in b
    ensures Unfragmented(b + "#" + f) == b
  {
    var t := b + "#" + f;
    NoAmpJoined(b, f, t);
    ReplaceAllAbsent(t, "&#x27;", "<link_single>");
    LastIndexAt(b, '#', f);
    assert t[..|b|] == b;
    ReplaceAllAbsent(b, "<link_single>", "&#x27;");
  }

  lemma NoAmpJoined(b: string, f: string, t: string)
    requires t == b + "#" + f && '&' !in b + f
    ensures '&' !in t
  {
    assert forall k :: 0 <= k < |t| ==> t[k] == '#' || t[k] in b + f;
  }

  /** A pattern holding a character that `s` lacks does not occur in `s`. */
  lemma {:induction false} AbsentPattern(s: string, pat: string, rep: string, c: char)
    requires |pat| > 0 && c in pat && c !in s
    ensures ReplaceAll(s, pat, rep) == s
    decreases |s|
  {
    if |s| >= |pat| {
      assert c !in s[1..] by { assert forall k :: 0 <= k < |s| - 1 ==> s[1..][k] == s[k + 1]; }
      AbsentPattern(s[1..], pat, rep, c);
      assert s == [s[0]] + s[1..];
    }
  }

  /** A pattern that does not occur is not replaced. */
  lemma {:induction false} NotOccurring(s: string, pat: string, rep: string)
    requires |pat| > 0 && !Occurs(pat, s)
    ensures ReplaceAll(s, pat, rep) == s
    decreases |s|
  {
    if |s| >= |pat| {
      NotOccurring(s[1..], pat, rep);
      assert s == [s[0]] + s[1..];
    }
  }

  /** The inter-wiki handler (src/index.ts:1359-1408) tests the fragment the
      wrong way round: without a fragment it unescapes the missing match
      group and throws; with one it keeps the fragment. It then removes the
      link either way. */
  datatype InterOutcome = Removed | Throws

  function InterLink(target: string, intended: bool): (r: InterOutcome)
    ensures intended ==> r == Removed
    ensures r == Throws <==> !intended && FragmentBase(ReplaceAll(target, "&#x27;", "<link_single>")) == ReplaceAll(target, "&#x27;", "<link_single>")
  {
    if intended then Removed
    else
      var t := ReplaceAll(target, "&#x27;", "<link_single>");
      var i := LastIndexOf(t, '#');
      if i.Some? && i.value + 1 < |t| then Removed else Throws
  }

  /** `[[inter:w:Page]]` throws as written. */
  lemma InterWithoutFragmentThrows()
    ensures InterLink("Page", false) == Throws
    ensures InterLink("Page", true) == Removed
  {
    AbsentPattern("Page", "&#x27;", "<link_single>", '#');
  }

  // ---------------------------------------------------------------------
  // Categories (src/index.ts:1309-1357)

  /** The category title a link names, before placeholders are restored:
      the target without its `분류:`/`category:` prefix, followed by the
      link's second part, and a final `#blur` (in any case) taken off as
      the blur flag. */
  function CategoryText(main: string, partTwo: Option<string>): (r: (string, bool))
    ensures r.1 ==> |r.0| + 5 <= |main| - PrefixLength(main, ["분류:", "category:"]) + (if partTwo.Some? then |partTwo.value| else 0)
  {
    var t := main[PrefixLength(main, ["분류:", "category:"])..];
    var t := if partTwo.Some? && partTwo.value != "" then t + partTwo.value else t;
    if EndsWithCI(t, "#blur") then (t[..|t| - 5], true) else (t, false)
  }

  /** `분류:A` starts with the Korean category prefix. */
  lemma CategoryPrefixOfExample()
    ensures PrefixLength("분류:A", ["분류:", "category:"]) == 3
  {
    var m := "분류:A";
    forall i | 0 <= i < 3 ensures Lower(m[i]) == "분류:"[i] {
      assert m[i] == "분류:"[i];
    }
    assert StartsWithCI(m, "분류:");
  }

  /** As written the suffix is the target itself, so `[[분류:A|#blur]]`
      names the category `A분류:A` and is not blurred. */
  lemma CategorySuffixExample()
    ensures CategoryText("분류:A", PartTwo(LinkMatch("[[분류:A|#blur]]", "분류:A", Some("#blur")), false)) == ("A분류:A", false)
  {
    var m := "분류:A";
    CategoryPrefixOfExample();
    assert m[3..] == "A";
    var t := "A" + m;
    assert t == "A분류:A";
    assert Lower(t[0]) != "#blur"[0];
    assert !EndsWithCI(t, "#blur");
  }

  /** With group 2, `[[분류:A|#blur]]` names the category `A` and is blurred. */
  lemma CategorySuffixIntended()
    ensures CategoryText("분류:A", PartTwo(LinkMatch("[[분류:A|#blur]]", "분류:A", Some("#blur")), true)) == ("A", true)
  {
    var m := "분류:A";
    CategoryPrefixOfExample();
    assert m[3..] == "A";
    var u := "A" + "#blur";
    assert u[..|u| - 5] == "A";
    forall i | 0 <= i < 5 ensures Lower(u[|u| - 5 + i]) == "#blur"[i] {
      assert u[|u| - 5 + i] == "#blur"[i];
    }
  }

  /** A backlink tuple `[document, target, kind]`. */
  datatype Backlink = Backlink(doc: string, target: string, kind: string)

  /** The category list, the backlinks and the category bar. */
  datatype Categories = Categories(list: seq<string>, backlinks: seq<Backlink>, bar: string)

  predicate Distinct(s: seq<string>) {
    forall i, j :: 0 <= i < j < |s| ==> s[i] != s[j]
  }

  /** A `no` backlink first when the page is missing, then the kind itself. */
  function Tagged(db: set<string>, doc: string, target: string, kind: string): (r: seq<Backlink>)
    ensures |r| == (if target in db then 1 else 2)
    ensures r[|r| - 1] == Backlink(doc, target, kind)
    ensures |r| == 2 ==> r[0] == Backlink(doc, target, "no")
  {
    if target in db then [Backlink(doc, target, kind)]
    else [Backlink(doc, target, "no"), Backlink(doc, target, kind)]
  }

  /** The bar entry of a new category; `url` is the address-encoded title. */
  function BarEntry(bar: string, db: set<string>, title: string, sub: string, blur: bool, url: string): string {
    var exist := if "category:" + title in db then "" else "opennamu_not_exist_link";
    (if bar == "" then "<div class=\"opennamu_category\">카테고리 : " else " | ")
    + "<a class=\"" + (if blur then "opennamu_category_blur" else "") + " " + exist + "\" title=\"" + sub
    + "\" href=\"/w/category:" + url + "\">" + sub + "</a>"
  }

  /** A category link: a title not yet listed is appended, with its
      backlinks and its bar entry; a listed title changes nothing. */
  function AddCategory(c: Categories, db: set<string>, doc: string, title: string, sub: string, blur: bool, url: string): (r: Categories)
    ensures title in r.list
    ensures Distinct(c.list) ==> Distinct(r.list)
  {
    if title in c.list then c
    else Categories(c.list + [title], c.backlinks + Tagged(db, doc, "category:" + title, "cat"),
                    c.bar + BarEntry(c.bar, db, title, sub, blur, url))
  }

  /** What a category link adds, in both cases. */
  lemma CategoryOnce(c: Categories, db: set<string>, doc: string, title: string, sub: string, blur: bool, url: string)
    ensures var r := AddCategory(c, db, doc, title, sub, blur, url);
            && (title in c.list ==> r == c)
            && (title !in c.list ==> r.list == c.list + [title])
            && (title !in c.list && "category:" + title in db ==>
                  r.backlinks == c.backlinks + [Backlink(doc, "category:" + title, "cat")])
            && (title !in c.list && "category:" + title !in db ==>
                  r.backlinks == c.backlinks + [Backlink(doc, "category:" + title, "no"), Backlink(doc, "category:" + title, "cat")])
            && (title !in c.list ==> StartsWith(r.bar, c.bar) && |r.bar| > |c.bar|)
  {
  }

  /** The titles in order of first appearance. */
  function Dedup(ts: seq<string>): (r: seq<string>)
    decreases |ts|
  {
    if ts == [] then []
    else
      var d := Dedup(ts[..|ts| - 1]);
      if ts[|ts| - 1] in d then d else d + [ts[|ts| - 1]]
  }

  /** A category link with everything but the title fixed. */
  datatype CategoryLink = CategoryLink(title: string, sub: string, blur: bool, url: string)

  function AddCategories(c: Categories, db: set<string>, doc: string, ls: seq<CategoryLink>): Categories
    decreases |ls|
  {
    if ls == [] then c
    else
      var l := ls[|ls| - 1];
      AddCategory(AddCategories(c, db, doc, ls[..|ls| - 1]), db, doc, l.title, l.sub, l.blur, l.url)
  }

  function Titles(ls: seq<CategoryLink>): (r: seq<string>)
    ensures |r| == |ls|
    ensures forall k :: 0 <= k < |ls| ==> r[k] == ls[k].title
  {
    if ls == [] then [] else Titles(ls[..|ls| - 1]) + [ls[|ls| - 1].title]
  }

  /** From an empty list, the category list is the titles in order of first
      appearance: no title twice, and every cited title present. */
  lemma {:induction false} CategoryListIsDedup(db: set<string>, doc: string, ls: seq<CategoryLink>)
    ensures var r := AddCategories(Categories([], [], ""), db, doc, ls);
            && r.list == Dedup(Titles(ls))
            && Distinct(r.list)
            && forall k :: 0 <= k < |ls| ==> ls[k].title in r.list
    decreases |ls|
  {
    if ls != [] {
      var front := ls[..|ls| - 1];
      CategoryListIsDedup(db, doc, front);
      assert Titles(ls)[..|ls| - 1] == Titles(front);
      forall k | 0 <= k < |ls| - 1 ensures ls[k] == front[k] { }
    }
  }

  // ---------------------------------------------------------------------
  // Backlinks of internal and file links (src/index.ts:1212-1222, 1456-1470)

  /** An internal link to a non-empty target records a plain backlink, after
      a `no` one when the page is missing. */
  function InternalBacklinks(db: set<string>, doc: string, target: string): (r: seq<Backlink>)
    ensures target == "" <==> r == []
    ensures target != "" ==> r[|r| - 1] == Backlink(doc, target, "") && (|r| == 2 <==> target !in db)
  {
    if target == "" then [] else Tagged(db, doc, target, "")
  }

  /** An inside file link records `file:<name>` the same way, with kind `file`. */
  function FileBacklinks(db: set<string>, doc: string, name: string): (r: seq<Backlink>)
    ensures |r| > 0
    ensures r[|r| - 1] == Backlink(doc, "file:" + name, "file")
    ensures |r| == 2 <==> "file:" + name !in db
  {
    Tagged(db, doc, "file:" + name, "file")
  }

  /** The loop budget: four times the length of the two-group match array. */
  const LinkBudget: nat := 12
}
