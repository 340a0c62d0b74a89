/** The placeholder store of src/index.ts:87-158. Rendered fragments are
    parked in a string map under keys `render_n`, `/render_n`,
    `revert_render_n` and `slash_n`, and the text carries tags `<render_n>`,
    `</render_n>` and `<slash_n>` in their place. This module gives the
    leftmost-tag search that the store's regular expressions perform, and
    the restore and revert loops as functions of the store and the text. */
module Placeholders {
  import opened Strings

  /** The `doType` argument: which tag kinds a search looks for. */
  datatype Scope = All | RenderOnly | SlashOnly

  /** `"all"` and `"render"` name their scopes; every other value selects
      the slash-only expression. */
  function ScopeOf(doType: string): Scope {
    if doType == "all" then All else if doType == "render" then RenderOnly else SlashOnly
  }

  /** A JavaScript property read: a missing key yields `undefined`, which
      the string operations turn into the text "undefined". */
  function JsGet(m: map<string, string>, k: string): string {
    if k in m then m[k] else "undefined"
  }

  // ---------------------------------------------------------------------
  // Keys

  function RenderKey(n: nat): string { "render_" + NatToString(n) }
  function SlashKey(n: nat): string { "slash_" + NatToString(n) }

  /** The number a well-formed store key carries, if it is one. */
  function KeyNumber(k: string): Option<nat> {
    if StartsWith(k, "render_") then Number(k[7..])
    else if StartsWith(k, "/render_") then Number(k[8..])
    else if StartsWith(k, "revert_render_") then Number(k[14..])
    else if StartsWith(k, "slash_") then Number(k[6..])
    else None
  }

  function Number(t: string): Option<nat> {
    if IsDigits(t) then Some(DigitsValue(t)) else None
  }

  /** Every key of the store is well formed and numbered at most `count`. */
  predicate StoreValid(storage: map<string, string>, count: nat) {
    forall k :: k in storage ==> KeyNumber(k).Some? && 1 <= KeyNumber(k).value <= count
  }

  /** A key numbered past the counter is not in a well-formed store. */
  lemma FreshKey(storage: map<string, string>, count: nat, key: string)
    requires StoreValid(storage, count) && KeyNumber(key) == Some(count + 1)
    ensures key !in storage
  {
  }

  /** Storing under a key numbered within the counter keeps the store well formed. */
  lemma PutValid(storage: map<string, string>, count: nat, key: string, v: string)
    requires StoreValid(storage, count)
    requires KeyNumber(key).Some? && 1 <= KeyNumber(key).value <= count
    ensures StoreValid(storage[key := v], count)
  {
  }

  lemma GrowValid(storage: map<string, string>, count: nat)
    requires StoreValid(storage, count)
    ensures StoreValid(storage, count + 1)
  {
  }

  /** The four kinds of key read back the number they were made with. */
  lemma KeyNumbers(n: nat)
    ensures KeyNumber(RenderKey(n)) == Some(n)
    ensures KeyNumber("/" + RenderKey(n)) == Some(n)
    ensures KeyNumber("revert_" + RenderKey(n)) == Some(n)
    ensures KeyNumber(SlashKey(n)) == Some(n)
  {
    RenderKeyNumber(n);
    CloseKeyNumber(n);
    RevertKeyNumber(n);
    SlashKeyNumber(n);
  }

  lemma RenderKeyNumber(n: nat)
    ensures KeyNumber(RenderKey(n)) == Some(n)
  {
    var d := NatToString(n);
    assert ("render_" + d)[..7] == "render_" && ("render_" + d)[7..] == d;
  }

  lemma CloseKeyNumber(n: nat)
    ensures KeyNumber("/" + RenderKey(n)) == Some(n)
  {
    var d := NatToString(n);
    var k := "/" + RenderKey(n);
    assert k == "/render_" + d;
    assert k[0] == '/' && !StartsWith(k, "render_");
    assert k[..8] == "/render_" && k[8..] == d;
  }

  lemma RevertKeyNumber(n: nat)
    ensures KeyNumber("revert_" + RenderKey(n)) == Some(n)
  {
    var d := NatToString(n);
    var k := "revert_" + RenderKey(n);
    assert k == "revert_render_" + d;
    assert k[..7] != "render_" && k[..8] != "/render_";
    assert k[..14] == "revert_render_" && k[14..] == d;
  }

  lemma SlashKeyNumber(n: nat)
    ensures KeyNumber(SlashKey(n)) == Some(n)
  {
    var d := NatToString(n);
    var k := SlashKey(n);
    assert k == "slash_" + d;
    assert k[0] == 's';
    assert !StartsWith(k, "render_") && !StartsWith(k, "/render_") && !StartsWith(k, "revert_render_");
    assert k[..6] == "slash_" && k[6..] == d;
  }

  /** A key never starts with `<`: every well-formed key starts with a letter or `/`. */
  lemma KeyNotTag(k: string)
    requires |k| > 0 && k[0] == '<'
    ensures KeyNumber(k) == None
  {
  }

  // ---------------------------------------------------------------------
  // Tags

  /** Number of decimal digits starting at `j`. */
  function DigitRun(s: string, j: nat): (d: nat)
    ensures j + d <= |s| || d == 0
    decreases |s| - j
  {
    if j < |s| && IsDigit(s[j]) then 1 + DigitRun(s, j + 1) else 0
  }

  /** `word_[0-9]+>` at position `j`: the index just after the `>`. */
  function NameAt(s: string, j: nat, word: string): (e: Option<nat>)
    ensures e.Some? ==> j + |word| + 3 <= e.value <= |s| && s[e.value - 1] == '>'
  {
    if j <= |s| && StartsWith(s[j..], word + "_") then
      var w := j + |word| + 1;
      var d := DigitRun(s, w);
      if d > 0 && w + d < |s| && s[w + d] == '>' then Some(w + d + 1) else None
    else None
  }

  function AllowsRender(scope: Scope): bool { scope != SlashOnly }
  function AllowsSlash(scope: Scope): bool { scope != RenderOnly }

  /** `<(/?(render|slash)_[0-9]+)>` at position `i`, restricted to the
      scope's words: the index just after the tag. */
  function TagAt(s: string, i: nat, scope: Scope): (e: Option<nat>)
    ensures e.Some? ==> i + 2 <= e.value <= |s| && s[i] == '<'
  {
    if i < |s| && s[i] == '<' then
      var j := if i + 1 < |s| && s[i + 1] == '/' then i + 2 else i + 1;
      var r := if AllowsRender(scope) then NameAt(s, j, "render") else None;
      if r.Some? then r
      else if AllowsSlash(scope) then NameAt(s, j, "slash")
      else None
    else None
  }

  /** A located tag: it spans `s[start..end]`. */
  datatype Span = Span(start: nat, end: nat)

  /** The leftmost tag at or after `i`: the match of the non-global expression. */
  function FindTag(s: string, scope: Scope, i: nat): (r: Option<Span>)
    ensures r.Some? ==> i <= r.value.start && r.value.start + 2 <= r.value.end <= |s|
    ensures r.Some? ==> TagAt(s, r.value.start, scope) == Some(r.value.end)
    decreases |s| - i
  {
    if i >= |s| then None
    else
      match TagAt(s, i, scope)
      case Some(e) => Some(Span(i, e))
      case None => FindTag(s, scope, i + 1)
  }

  /** The key a tag names: the text between `<` and `>`. */
  function TagKey(s: string, sp: Span): string
    requires sp.start + 2 <= sp.end <= |s|
  {
    s[sp.start + 1 .. sp.end - 1]
  }

  // ---------------------------------------------------------------------
  // Restore (src/index.ts:102-121)

  /** One turn of the restore loop: the first tag becomes its stored value. */
  function RestoreStep(storage: map<string, string>, s: string, sp: Span): string
    requires sp.start + 2 <= sp.end <= |s|
  {
    s[..sp.start] + JsGet(storage, TagKey(s, sp)) + s[sp.end..]
  }

  /** The restore loop with `budget` left: it stops when no tag is left or
      the budget has fallen below zero. */
  function Restore(storage: map<string, string>, s: string, scope: Scope, budget: int): string
    requires budget >= -1
    decreases budget + 1
  {
    match FindTag(s, scope, 0)
    case None => s
    case Some(sp) =>
      if budget < 0 then s
      else Restore(storage, RestoreStep(storage, s, sp), scope, budget - 1)
  }

  /** The number of replacements the restore loop makes. */
  function Replacements(storage: map<string, string>, s: string, scope: Scope, budget: int): nat
    requires budget >= -1
    decreases budget + 1
  {
    match FindTag(s, scope, 0)
    case None => 0
    case Some(sp) =>
      if budget < 0 then 0
      else 1 + Replacements(storage, RestoreStep(storage, s, sp), scope, budget - 1)
  }

  /** `n` first-tag replacements in a row (fewer if the tags run out). */
  function Steps(storage: map<string, string>, s: string, scope: Scope, n: nat): string
    decreases n
  {
    if n == 0 then s
    else match FindTag(s, scope, 0)
      case None => s
      case Some(sp) => Steps(storage, RestoreStep(storage, s, sp), scope, n - 1)
  }

  /** One turn of the loop, as seen by Restore, Replacements and Steps. */
  lemma RestoreUnfold(storage: map<string, string>, s: string, scope: Scope, budget: int, sp: Span, n: nat)
    requires budget >= 0 && FindTag(s, scope, 0) == Some(sp)
    ensures Restore(storage, s, scope, budget) == Restore(storage, RestoreStep(storage, s, sp), scope, budget - 1)
    ensures Replacements(storage, s, scope, budget) == 1 + Replacements(storage, RestoreStep(storage, s, sp), scope, budget - 1)
    ensures Steps(storage, s, scope, n + 1) == Steps(storage, RestoreStep(storage, s, sp), scope, n)
  {
  }

  /** The loop stops at once when no tag is left or the budget is spent. */
  lemma RestoreStop(storage: map<string, string>, s: string, scope: Scope, budget: int)
    requires budget >= -1 && (FindTag(s, scope, 0).None? || budget < 0)
    ensures Restore(storage, s, scope, budget) == s == Steps(storage, s, scope, 0)
    ensures Replacements(storage, s, scope, budget) == 0
  {
  }

  /** The restore loop makes at most `budget + 1` replacements. */
  lemma {:induction false} RestoreBound(storage: map<string, string>, s: string, scope: Scope, budget: int)
    requires budget >= -1
    ensures Replacements(storage, s, scope, budget) <= budget + 1
    decreases budget + 1
  {
    var f := FindTag(s, scope, 0);
    if f.Some? && budget >= 0 {
      var t := RestoreStep(storage, s, f.value);
      RestoreBound(storage, t, scope, budget - 1);
      RestoreUnfold(storage, s, scope, budget, f.value, 0);
    }
  }

  /** Each replacement of the restore loop puts the first tag's stored
      value in its place. */
  lemma {:induction false} RestoreSteps(storage: map<string, string>, s: string, scope: Scope, budget: int)
    requires budget >= -1
    ensures Restore(storage, s, scope, budget) == Steps(storage, s, scope, Replacements(storage, s, scope, budget))
    decreases budget + 1
  {
    var f := FindTag(s, scope, 0);
    if f.None? || budget < 0 {
      RestoreStop(storage, s, scope, budget);
    } else {
      RestoreSteps(storage, RestoreStep(storage, s, f.value), scope, budget - 1);
      RestoreStepsNext(storage, s, scope, budget, f.value);
    }
  }

  /** One more turn in front of a run that already agrees with its steps. */
  lemma RestoreStepsNext(storage: map<string, string>, s: string, scope: Scope, budget: int, sp: Span)
    requires budget >= 0 && FindTag(s, scope, 0) == Some(sp)
    requires var t := RestoreStep(storage, s, sp);
      Restore(storage, t, scope, budget - 1) == Steps(storage, t, scope, Replacements(storage, t, scope, budget - 1))
    ensures Restore(storage, s, scope, budget) == Steps(storage, s, scope, Replacements(storage, s, scope, budget))
  {
    var t := RestoreStep(storage, s, sp);
    RestoreUnfold(storage, s, scope, budget, sp, Replacements(storage, t, scope, budget - 1));
  }

  /** If the budget was not used up, no tag of the scope is left. */
  lemma {:induction false} RestoreExhausts(storage: map<string, string>, s: string, scope: Scope, budget: int)
    requires budget >= -1
    ensures Replacements(storage, s, scope, budget) <= budget ==>
              FindTag(Restore(storage, s, scope, budget), scope, 0).None?
    decreases budget + 1
  {
    var f := FindTag(s, scope, 0);
    if f.None? || budget < 0 {
      RestoreStop(storage, s, scope, budget);
    } else {
      var t := RestoreStep(storage, s, f.value);
      RestoreExhausts(storage, t, scope, budget - 1);
      RestoreUnfold(storage, s, scope, budget, f.value, 0);
    }
  }

  /** Text with no `<` holds no tag. */
  lemma {:induction false} NoTagWithoutBracket(s: string, scope: Scope, i: nat)
    requires forall j :: i <= j < |s| ==> s[j] != '<'
    ensures FindTag(s, scope, i).None?
    decreases |s| - i
  {
    if i < |s| {
      NoTagWithoutBracket(s, scope, i + 1);
    }
  }

  /** The tag of a slash key is found where it is written. */
  lemma SlashTagFound(p: string, n: nat, q: string, scope: Scope)
    requires '<' !in p && scope != RenderOnly
    ensures var s := p + "<" + SlashKey(n) + ">" + q;
      FindTag(s, scope, 0) == Some(Span(|p|, |p| + |SlashKey(n)| + 2))
      && TagKey(s, Span(|p|, |p| + |SlashKey(n)| + 2)) == SlashKey(n)
  {
    var key := SlashKey(n);
    var s := p + "<" + key + ">" + q;
    SlashTagAt(p, n, q, scope);
    TagLayout(p, key, q, s);
    FindTagSkip(s, scope, 0, |p|);
  }

  /** Where the parts of `p<key>q` sit. */
  lemma TagLayout(p: string, key: string, q: string, s: string)
    requires s == p + "<" + key + ">" + q && '<' !in p
    ensures |p| < |s| && forall j :: 0 <= j < |p| ==> s[j] != '<'
    ensures |p| + |key| + 2 <= |s| && s[|p| + 1 .. |p| + |key| + 1] == key
  {
    assert forall j :: 0 <= j < |p| ==> s[j] == p[j];
  }

  lemma SlashTagAt(p: string, n: nat, q: string, scope: Scope)
    requires scope != RenderOnly
    ensures var s := p + "<" + SlashKey(n) + ">" + q;
      TagAt(s, |p|, scope) == Some(|p| + |SlashKey(n)| + 2)
  {
    var key := SlashKey(n);
    var d := NatToString(n);
    var s := p + "<" + key + ">" + q;
    var i := |p|;
    assert s[i] == '<';
    assert s[i + 1] == 's';
    assert s[i + 1..][..6] == "slash_";
    assert s[i + 1..][..7] != "render_";
    DigitRunAt(s, i + 7, d, '>');
  }

  lemma {:induction false} DigitRunAt(s: string, w: nat, d: string, c: char)
    requires w + |d| < |s| && s[w..w + |d|] == d && s[w + |d|] == c && !IsDigit(c)
    requires forall i :: 0 <= i < |d| ==> IsDigit(d[i])
    ensures DigitRun(s, w) == |d|
    decreases |d|
  {
    if d != [] {
      assert s[w + 1..w + |d|] == d[1..];
      assert s[w] == d[0];
      DigitRunAt(s, w + 1, d[1..], c);
    }
  }

  /** The search moves past a position that holds no `<`. */
  lemma FindTagNext(s: string, scope: Scope, i: nat)
    requires i < |s| && s[i] != '<'
    ensures FindTag(s, scope, i) == FindTag(s, scope, i + 1)
  {
    assert TagAt(s, i, scope) == None;
  }

  lemma FindTagSkip(s: string, scope: Scope, i: nat, a: nat)
    requires i <= a < |s|
    requires forall j :: i <= j < a ==> s[j] != '<'
    requires TagAt(s, a, scope).Some?
    ensures FindTag(s, scope, i) == Some(Span(a, TagAt(s, a, scope).value))
  {
    FindTagJump(s, scope, i, a);
    FindTagHere(s, scope, a);
  }

  /** The search passes over a stretch without `<`. */
  lemma FindTagJump(s: string, scope: Scope, i: nat, a: nat)
    requires i <= a <= |s|
    requires forall j :: i <= j < a ==> s[j] != '<'
    ensures FindTag(s, scope, i) == FindTag(s, scope, a)
  {
    FindTagSteps(s, scope, i, a);
    StepsAgree((k: nat) => FindTag(s, scope, k), i, a);
  }

  lemma FindTagSteps(s: string, scope: Scope, i: nat, a: nat)
    requires i <= a <= |s|
    requires forall j :: i <= j < a ==> s[j] != '<'
    ensures forall k :: i <= k < a ==> FindTag(s, scope, k) == FindTag(s, scope, k + 1)
  {
    forall k | i <= k < a
      ensures FindTag(s, scope, k) == FindTag(s, scope, k + 1)
    {
      FindTagNext(s, scope, k);
    }
  }


  /** A value that agrees at each step from `i` to `a` agrees at the ends. */
  lemma {:induction false} StepsAgree<T>(f: nat -> T, i: nat, a: nat)
    requires i <= a
    requires forall k :: i <= k < a ==> f(k) == f(k + 1)
    ensures f(i) == f(a)
    decreases a - i
  {
    if i < a {
      StepsAgree(f, i + 1, a);
    }
  }


  lemma FindTagHere(s: string, scope: Scope, a: nat)
    requires a < |s| && TagAt(s, a, scope).Some?
    ensures FindTag(s, scope, a) == Some(Span(a, TagAt(s, a, scope).value))
  {
  }

  /** Store then restore: a slash tag written between text without `<`
      comes back as the value it stands for. */
  lemma SlashRoundTrip(storage: map<string, string>, n: nat, p: string, q: string, scope: Scope, budget: int)
    requires SlashKey(n) in storage && budget >= 0 && scope != RenderOnly
    requires '<' !in p && '<' !in q && '<' !in storage[SlashKey(n)]
    ensures Restore(storage, p + "<" + SlashKey(n) + ">" + q, scope, budget) == p + storage[SlashKey(n)] + q
  {
    var s := p + "<" + SlashKey(n) + ">" + q;
    var sp := Span(|p|, |p| + |SlashKey(n)| + 2);
    SlashTagFound(p, n, q, scope);
    var t := RestoreStep(storage, s, sp);
    assert s[..sp.start] == p;
    assert s[sp.end..] == q;
    assert t == p + storage[SlashKey(n)] + q;
    NoTagWithoutBracket(t, scope, 0);
  }

  // ---------------------------------------------------------------------
  // Revert (src/index.ts:123-157)

  predicate IsLineTerminator(c: char) {
    c == '\n' || c == '\r' || c == ' ' || c == ' '
  }

  /** The first position at or after `p` where the body of a render span
      must stop: the end of the text, a render tag, or a line terminator
      the body may not contain (every one in the "render" scope, all but
      `\n` in the "all" scope). */
  function BodyEnd(s: string, p: nat, newline: bool): (q: nat)
    requires p <= |s|
    ensures p <= q <= |s|
    decreases |s| - p
  {
    if p == |s| then p
    else if TagAt(s, p, RenderOnly).Some? then p
    else if IsLineTerminator(s[p]) && !(newline && s[p] == '\n') then p
    else BodyEnd(s, p + 1, newline)
  }

  /** `<render_N>` + body + `</render_M>` at `i`: the index after the close tag. */
  function RenderSpanAt(s: string, i: nat, newline: bool): (e: Option<nat>)
    ensures e.Some? ==> i < e.value <= |s|
  {
    if i < |s| && s[i] == '<' then
      match NameAt(s, i + 1, "render")
      case None => None
      case Some(open) =>
        var q := BodyEnd(s, open, newline);
        if q + 1 < |s| && s[q] == '<' && s[q + 1] == '/' then NameAt(s, q + 2, "render")
        else None
    else None
  }

  /** A reference the revert expression matches: a slash tag, or a whole
      render span whose opening tag names `name`. */
  datatype Reference = Reference(start: nat, end: nat, isRender: bool, name: string)

  function ReferenceAt(s: string, i: nat, scope: Scope): (r: Option<Reference>)
    ensures r.Some? ==> r.value.start == i < r.value.end <= |s|
  {
    var slash := if i < |s| && s[i] == '<' && scope != RenderOnly then NameAt(s, i + 1, "slash") else None;
    if slash.Some? then Some(Reference(i, slash.value, false, s[i + 1 .. slash.value - 1]))
    else if scope == SlashOnly then None
    else
      match RenderSpanAt(s, i, scope == All)
      case None => None
      case Some(e) =>
        var open := NameAt(s, i + 1, "render").value;
        Some(Reference(i, e, true, s[i + 1 .. open - 1]))
  }

  function FindReference(s: string, scope: Scope, i: nat): (r: Option<Reference>)
    ensures r.Some? ==> i <= r.value.start < r.value.end <= |s|
    decreases |s| - i
  {
    if i >= |s| then None
    else
      match ReferenceAt(s, i, scope)
      case Some(m) => Some(m)
      case None => FindReference(s, scope, i + 1)
  }

  /** What a reference is reverted to, as written: the tests against the
      bare word `render` never hold, so every reference takes the slash
      branch, which looks up the whole matched text. */
  function RevertValueAsWritten(storage: map<string, string>, s: string, m: Reference): string
    requires m.start < m.end <= |s|
  {
    "\\" + JsGet(storage, s[m.start..m.end])
  }

  /** What a reference was evidently meant to revert to: a slash tag gives
      back the backslash and the escaped text; a render span gives back its
      `revert_` entry, or nothing when that is missing or empty. */
  function RevertValueIntended(storage: map<string, string>, s: string, m: Reference): string
    requires m.start < m.end <= |s|
  {
    if m.isRender then
      (if "revert_" + m.name in storage then storage["revert_" + m.name] else "")
    else "\\" + JsGet(storage, m.name)
  }

  function RevertStep(storage: map<string, string>, s: string, m: Reference, intended: bool): string
    requires m.start < m.end <= |s|
  {
    s[..m.start]
    + (if intended then RevertValueIntended(storage, s, m) else RevertValueAsWritten(storage, s, m))
    + s[m.end..]
  }

  /** The revert loop with `budget` left. */
  function RevertLoop(storage: map<string, string>, s: string, scope: Scope, budget: int, intended: bool): string
    requires budget >= -1
    decreases budget + 1
  {
    match FindReference(s, scope, 0)
    case None => s
    case Some(m) =>
      if budget < 0 then s
      else RevertLoop(storage, RevertStep(storage, s, m, intended), scope, budget - 1, intended)
  }

  /** The whole of `getToolDataRevert`: the loop, then the line-break
      markers removed. */
  function Revert(storage: map<string, string>, count: nat, s: string, scope: Scope, intended: bool): string {
    var r := RevertLoop(storage, s, scope, 3 * count, intended);
    ReplaceAll(ReplaceAll(r, "<front_br>", ""), "<back_br>", "")
  }

  /** As written, a well-formed store never answers the revert lookup, so
      every reference turns into the text `\undefined`. */
  lemma RevertAsWrittenUndefined(storage: map<string, string>, count: nat, s: string, m: Reference)
    requires StoreValid(storage, count)
    requires m.start < m.end <= |s| && s[m.start] == '<'
    ensures RevertValueAsWritten(storage, s, m) == "\\undefined"
  {
    KeyNotTag(s[m.start..m.end]);
  }

  /** A concrete instance: the slash tag of an escaped `*` reverts to
      `\undefined` instead of `\*`. */
  lemma RevertSlashExample()
    ensures var storage := map["slash_1" := "*"];
      var s := "<slash_1>";
      ReferenceAt(s, 0, All) == Some(Reference(0, 9, false, "slash_1"))
      && RevertValueAsWritten(storage, s, Reference(0, 9, false, "slash_1")) == "\\undefined"
      && RevertValueIntended(storage, s, Reference(0, 9, false, "slash_1")) == "\\*"
  {
    var s := "<slash_1>";
    assert s[1..][..6] == "slash_";
    assert DigitRun(s, 7) == 1;
    assert s[1..8] == "slash_1";
    assert "slash_1" != s[0..9];
  }

  /** The intended revert undoes a slash escape: the tag of a stored
      character comes back as a backslash and that character. */
  lemma RevertIntendedSlash(storage: map<string, string>, n: nat, p: string, q: string)
    requires SlashKey(n) in storage && '<' !in p
    ensures var s := p + "<" + SlashKey(n) + ">" + q;
      var m := FindReference(s, All, 0);
      m.Some? && !m.value.isRender && RevertValueIntended(storage, s, m.value) == "\\" + storage[SlashKey(n)]
  {
    var s := p + "<" + SlashKey(n) + ">" + q;
    var i := |p|;
    var key := SlashKey(n);
    var d := NatToString(n);
    assert s[i] == '<';
    assert s[i + 1..][..6] == "slash_";
    DigitRunAt(s, i + 7, d, '>');
    assert NameAt(s, i + 1, "slash") == Some(i + |key| + 2);
    assert s[i + 1 .. i + |key| + 1] == key;
    assert ReferenceAt(s, i, All) == Some(Reference(i, i + |key| + 2, false, key));
    FindReferenceSkip(s, All, 0, i);
  }

  lemma {:induction false} FindReferenceSkip(s: string, scope: Scope, i: nat, a: nat)
    requires i <= a < |s|
    requires forall j :: i <= j < a ==> s[j] != '<'
    requires ReferenceAt(s, a, scope).Some?
    ensures FindReference(s, scope, i) == ReferenceAt(s, a, scope)
    decreases a - i
  {
    if i < a {
      FindReferenceNext(s, scope, i);
      FindReferenceSkip(s, scope, i + 1, a);
    } else {
      FindReferenceHere(s, scope, a);
    }
  }

  /** The search moves past a position that holds no `<`. */
  lemma FindReferenceNext(s: string, scope: Scope, i: nat)
    requires i < |s| && s[i] != '<'
    ensures FindReference(s, scope, i) == FindReference(s, scope, i + 1)
  {
    assert ReferenceAt(s, i, scope) == None;
  }

  lemma FindReferenceHere(s: string, scope: Scope, a: nat)
    requires a < |s| && ReferenceAt(s, a, scope).Some?
    ensures FindReference(s, scope, a) == ReferenceAt(s, a, scope)
  {
  }
}
