/** The renderer's small pure helpers (src/index.ts): `getToolCssSafe`,
    `getToolJSSafe`, `getToolDarkModeSplit`, `getToolPxAddCheck`, the
    backslash rule of the include-default handler, the font-size table, the
    dday formatting, the bullet-list item and the video embed address. */
module Tools {
  import opened Strings

  // ---------------------------------------------------------------------
  // getToolCssSafe (src/index.ts:160-162)

  /** Every `;` removed, so the value cannot close a CSS declaration. */
  function CssSafe(data: string): (r: string)
    ensures ';' !in r
    ensures |r| == |data| - Count(data, ';')
    ensures ';' !in data ==> r == data
  {
    ReplaceAllOneChar(data, ';', "");
    DropCharFacts(data, ';');
    ReplaceAll(data, ";", "")
  }

  lemma {:induction false} DropCharFacts(s: string, c: char)
    ensures c !in MapChar(s, c, "")
    ensures |MapChar(s, c, "")| == |s| - Count(s, c)
    ensures c !in s ==> MapChar(s, c, "") == s
  {
    if s != [] {
      DropCharFacts(s[1..], c);
    }
  }

  // ---------------------------------------------------------------------
  // getToolJSSafe (src/index.ts:164-171)

  /** A line break becomes the two backslashes and `n` of the first
      replacement, then every backslash is doubled and both quotes are
      backslash-escaped. */
  function JSSafe(data: string): string {
    ReplaceAll(ReplaceAll(ReplaceAll(ReplaceAll(
      data, "\n", "\\\\n"), "\\", "\\\\"), "'", "\\'"), "\"", "\\\"")
  }

  /** What a character becomes under JSSafe. */
  function JsTok(c: char): string {
    if c == '\n' then "\\\\\\\\n"
    else if c == '\\' then "\\\\"
    else if c == '\'' then "\\'"
    else if c == '"' then "\\\""
    else [c]
  }

  function JsTokens(x: string): string {
    if x == [] then [] else JsTok(x[0]) + JsTokens(x[1..])
  }

  function JsMaps(x: string): string {
    MapChar(MapChar(MapChar(MapChar(x, '\n', "\\\\n"), '\\', "\\\\"), '\'', "\\'"), '"', "\\\"")
  }

  lemma JsMapsOne(c: char)
    ensures JsMaps([c]) == JsTok(c)
  {
    MapCharSingle(c, '\n', "\\\\n");
    if c == '\n' {
      var t := "\\\\n";
      assert t == "\\" + "\\" + "n";
      MapCharAppend("\\", "\\" + "n", '\\', "\\\\");
      MapCharAppend("\\", "n", '\\', "\\\\");
      MapCharSingle('\\', '\\', "\\\\");
      MapCharSingle('n', '\\', "\\\\");
      assert MapChar(t, '\\', "\\\\") == "\\\\\\\\n";
      MapCharAbsent("\\\\\\\\n", '\'', "\\'");
      MapCharAbsent("\\\\\\\\n", '"', "\\\"");
    } else {
      MapCharSingle(c, '\\', "\\\\");
      if c == '\\' {
        MapCharAbsent("\\\\", '\'', "\\'");
        MapCharAbsent("\\\\", '"', "\\\"");
      } else {
        MapCharSingle(c, '\'', "\\'");
        if c == '\'' {
          MapCharAbsent("\\'", '"', "\\\"");
        } else {
          MapCharSingle(c, '"', "\\\"");
        }
      }
    }
  }

  lemma MapCharSingle(c: char, d: char, rep: string)
    ensures MapChar([c], d, rep) == if c == d then rep else [c]
  {
    assert [c][1..] == [];
  }

  lemma {:induction false} JsMapsIsTokens(x: string)
    ensures JsMaps(x) == JsTokens(x)
  {
    if x != [] {
      var c, t := x[0], x[1..];
      assert x == [c] + t;
      var a1, b1 := MapChar([c], '\n', "\\\\n"), MapChar(t, '\n', "\\\\n");
      MapCharAppend([c], t, '\n', "\\\\n");
      var a2, b2 := MapChar(a1, '\\', "\\\\"), MapChar(b1, '\\', "\\\\");
      MapCharAppend(a1, b1, '\\', "\\\\");
      var a3, b3 := MapChar(a2, '\'', "\\'"), MapChar(b2, '\'', "\\'");
      MapCharAppend(a2, b2, '\'', "\\'");
      MapCharAppend(a3, b3, '"', "\\\"");
      JsMapsOne(c);
      JsMapsIsTokens(t);
    }
  }

  lemma JSSafeIsTokens(x: string)
    ensures JSSafe(x) == JsTokens(x)
  {
    var s1 := ReplaceAll(x, "\n", "\\\\n");
    ReplaceAllOneChar(x, '\n', "\\\\n");
    var s2 := ReplaceAll(s1, "\\", "\\\\");
    ReplaceAllOneChar(s1, '\\', "\\\\");
    var s3 := ReplaceAll(s2, "'", "\\'");
    ReplaceAllOneChar(s2, '\'', "\\'");
    ReplaceAllOneChar(s3, '"', "\\\"");
    JsMapsIsTokens(x);
  }

  /** The body of a quoted JavaScript string literal that no quote, line
      break or stray backslash can end early: every character is plain or
      a backslash escape of a character other than a line break. */
  predicate SafeLiteral(r: string)
    decreases |r|
  {
    r == []
    || (|r| >= 2 && r[0] == '\\' && r[1] != '\n' && SafeLiteral(r[2..]))
    || (r[0] != '\\' && r[0] != '\'' && r[0] != '"' && r[0] != '\n' && SafeLiteral(r[1..]))
  }

  /** How JavaScript reads the body of such a literal: `\c` is `c`. */
  function JsDecode(r: string): string
    decreases |r|
  {
    if r == [] then []
    else if r[0] == '\\' && |r| >= 2 then [r[1]] + JsDecode(r[2..])
    else [r[0]] + JsDecode(r[1..])
  }

  /** A token followed by a safe literal is a safe literal, and it reads
      back as its character (a line break as two backslashes and `n`). */
  lemma TokThenSafe(c: char, rest: string)
    requires SafeLiteral(rest)
    ensures SafeLiteral(JsTok(c) + rest)
    ensures JsDecode(JsTok(c) + rest) == (if c == '\n' then "\\\\n" else [c]) + JsDecode(rest)
  {
    var u := JsTok(c) + rest;
    if c == '\n' {
      var w := u[2..];
      var z := w[2..];
      assert u[0] == '\\' && u[1] == '\\' && w == "\\\\n" + rest;
      assert w[0] == '\\' && w[1] == '\\' && z == "n" + rest;
      assert z[0] == 'n' && z[1..] == rest;
      assert SafeLiteral(z) && JsDecode(z) == "n" + JsDecode(rest);
      assert SafeLiteral(w) && JsDecode(w) == "\\" + JsDecode(z);
    } else if IsEscaped(c) {
      assert u[0] == '\\' && u[1] == c && u[2..] == rest;
    } else {
      assert u[0] == c && u[1..] == rest;
    }
  }

  predicate IsEscaped(c: char) {
    c == '\\' || c == '\'' || c == '"'
  }

  lemma {:induction false} JsTokensSafe(x: string)
    ensures SafeLiteral(JsTokens(x))
    ensures JsDecode(JsTokens(x)) == MapChar(x, '\n', "\\\\n")
  {
    if x != [] {
      JsTokensSafe(x[1..]);
      TokThenSafe(x[0], JsTokens(x[1..]));
    }
  }

  /** JSSafe output can be placed between quotes in JavaScript: nothing in
      it ends the literal, and the literal reads back as the input with each
      line break written as two backslashes and `n`. */
  lemma JSSafeQuoted(x: string)
    ensures SafeLiteral(JSSafe(x))
    ensures JsDecode(JSSafe(x)) == MapChar(x, '\n', "\\\\n")
  {
    JSSafeIsTokens(x);
    JsTokensSafe(x);
  }

  // ---------------------------------------------------------------------
  // getToolDarkModeSplit (src/index.ts:173-180)

  /** `light,dark`: the first value in the light theme (`darkmode` "0"),
      the second otherwise; a value without a comma is used as is. */
  function DarkModeSplit(data: string, darkmode: string): (r: string)
    ensures ',' !in r
    ensures ',' !in data ==> r == data
    ensures ',' in data ==> |Split(data, ',')| > 1 && r == Split(data, ',')[if darkmode == "0" then 0 else 1]
  {
    var pieces := Split(data, ',');
    SplitNoSep(data, ',');
    if |pieces| == 1 then pieces[0]
    else if darkmode == "0" then pieces[0]
    else pieces[1]
  }

  lemma {:induction false} SplitNoSep(s: string, sep: char)
    ensures sep in s <==> |Split(s, sep)| > 1
    ensures sep !in s ==> Split(s, sep) == [s]
  {
    if s != [] {
      SplitNoSep(s[1..], sep);
      assert s == [s[0]] + s[1..];
    }
  }

  // ---------------------------------------------------------------------
  // getToolPxAddCheck (src/index.ts:182-185)

  /** A bare number of pixels gets its unit; anything else is kept. */
  function PxAddCheck(data: string): (r: string)
    ensures IsDigits(data) ==> r == data + "px"
    ensures !IsDigits(data) ==> r == data
  {
    if IsDigits(data) then data + "px" else data
  }

  /** Adding the unit once is enough: a second check leaves the value alone. */
  lemma PxAddCheckIdempotent(data: string)
    ensures PxAddCheck(PxAddCheck(data)) == PxAddCheck(data)
  {
    if IsDigits(data) {
      var r := data + "px";
      assert r[|r| - 1] == 'x';
    }
  }

  // ---------------------------------------------------------------------
  // The include-default handler (src/index.ts:231-240)

  /** The replacement for `\…\@name=value@`: `slashes` is the backslash run
      before `@`, `value` the default value ("" for the `@name@` form,
      whose third argument is the match offset). A value that is a single
      backslash keeps the match; otherwise an odd run loses one backslash
      and the value follows. */
  function IncludeDefault(matched: string, slashes: nat, value: string): (r: string)
    ensures value == "\\" ==> r == matched
    ensures value != "\\" ==> r == Repeat('\\', slashes - slashes % 2) + value
  {
    if value == "\\" then matched
    else
      var slashAdd := if slashes > 0 then (if slashes % 2 == 1 then Repeat('\\', slashes - 1) else Repeat('\\', slashes)) else "";
      slashAdd + value
  }

  /** The run of backslashes the handler emits is always even, and at most
      one shorter than the one it was given. */
  lemma IncludeDefaultEven(matched: string, slashes: nat, value: string)
    requires value != "\\"
    ensures var r := IncludeDefault(matched, slashes, value);
      exists e :: 0 <= e <= slashes && e % 2 == 0 && slashes - e <= 1 && r == Repeat('\\', e) + value
  {
    var e := slashes - slashes % 2;
    assert IncludeDefault(matched, slashes, value) == Repeat('\\', e) + value;
  }

  // ---------------------------------------------------------------------
  // Font sizes (src/index.ts:506-535)

  /** `+1`…`+5` and `-1`…`-5`: the percentage the size macro writes,
      20 points per step above 100 and 10 points per step below. */
  function FontSize(name: string): (r: Option<string>)
    ensures r.Some? <==> IsSizeName(name)
    ensures r.Some? && name[0] == '+' ==> r.value == NatToString(100 + 20 * DigitValue(name[1]))
    ensures r.Some? && name[0] == '-' ==> r.value == NatToString(100 - 10 * DigitValue(name[1]))
  {
    SizeNameShape(name);
    if name in ["+5", "+4", "+3", "+2", "+1"] then Some(SizeUp(name))
    else if name in ["-5", "-4", "-3", "-2", "-1"] then Some(SizeDown(name))
    else None
  }

  /** The percentages of the larger sizes, as the source's table lists them. */
  function SizeUp(name: string): (r: string)
    requires name in ["+5", "+4", "+3", "+2", "+1"]
    ensures r == NatToString(100 + 20 * DigitValue(name[1]))
  {
    LargerSize(name);
    if name == "+5" then "200" else if name == "+4" then "180" else if name == "+3" then "160"
    else if name == "+2" then "140" else "120"
  }

  /** The percentages of the smaller sizes, as the source's table lists them. */
  function SizeDown(name: string): (r: string)
    requires name in ["-5", "-4", "-3", "-2", "-1"]
    ensures r == NatToString(100 - 10 * DigitValue(name[1]))
  {
    SmallerSize(name);
    if name == "-5" then "50" else if name == "-4" then "60" else if name == "-3" then "70"
    else if name == "-2" then "80" else "90"
  }

  /** A sign followed by one digit from 1 to 5. */
  predicate IsSizeName(name: string) {
    |name| == 2 && (name[0] == '+' || name[0] == '-') && '1' <= name[1] <= '5'
  }

  lemma SizeNames(name: string)
    ensures IsSizeName(name) <==> name in ["+5", "+4", "+3", "+2", "+1", "-5", "-4", "-3", "-2", "-1"]
    ensures name in ["+5", "+4", "+3", "+2", "+1"] ==>
      NatToString(100 + 20 * DigitValue(name[1])) == (if name == "+5" then "200" else if name == "+4" then "180"
        else if name == "+3" then "160" else if name == "+2" then "140" else "120")
    ensures name in ["-5", "-4", "-3", "-2", "-1"] ==>
      NatToString(100 - 10 * DigitValue(name[1])) == (if name == "-5" then "50" else if name == "-4" then "60"
        else if name == "-3" then "70" else if name == "-2" then "80" else "90")
  {
    SizeNameShape(name);
    if name in ["+5", "+4", "+3", "+2", "+1"] {
      LargerSize(name);
    } else if name in ["-5", "-4", "-3", "-2", "-1"] {
      SmallerSize(name);
    }
  }

  lemma LargerSize(name: string)
    requires name in ["+5", "+4", "+3", "+2", "+1"]
    ensures NatToString(100 + 20 * DigitValue(name[1])) == (if name == "+5" then "200" else if name == "+4" then "180"
        else if name == "+3" then "160" else if name == "+2" then "140" else "120")
  {
    LargerSizes();
  }

  lemma SmallerSize(name: string)
    requires name in ["-5", "-4", "-3", "-2", "-1"]
    ensures NatToString(100 - 10 * DigitValue(name[1])) == (if name == "-5" then "50" else if name == "-4" then "60"
        else if name == "-3" then "70" else if name == "-2" then "80" else "90")
  {
    SmallerSizes();
  }

  lemma SizeNameShape(name: string)
    ensures IsSizeName(name) <==> name in ["+5", "+4", "+3", "+2", "+1", "-5", "-4", "-3", "-2", "-1"]
  {
    if IsSizeName(name) {
      assert name == [name[0], name[1]];
    }
  }

  lemma LargerSizes()
    ensures NatToString(200) == "200" && NatToString(180) == "180" && NatToString(160) == "160"
    ensures NatToString(140) == "140" && NatToString(120) == "120"
  {
    NatToString3(200); NatToString3(180); NatToString3(160); NatToString3(140); NatToString3(120);
  }

  lemma SmallerSizes()
    ensures NatToString(50) == "50" && NatToString(60) == "60" && NatToString(70) == "70"
    ensures NatToString(80) == "80" && NatToString(90) == "90"
  {
    NatToString2(50); NatToString2(60); NatToString2(70); NatToString2(80); NatToString2(90);
  }

  function Digit(k: nat): char
    requires k < 10
  {
    ('0' as nat + k) as char
  }

  lemma NatToString2(n: nat)
    requires 10 <= n < 100
    ensures NatToString(n) == [Digit(n / 10), Digit(n % 10)]
  {
  }

  lemma NatToString3(n: nat)
    requires 100 <= n < 1000
    ensures NatToString(n) == [Digit(n / 100), Digit(n / 10 % 10), Digit(n % 10)]
  {
    NatToString2(n / 10);
  }

  // ---------------------------------------------------------------------
  // dday (src/index.ts:1069-1075)

  /** The day offset with its sign: `+n` after the date, `-0` on the day
      itself, `-n` before it. */
  function Dday(days: int): (r: string)
    ensures |r| >= 2
    ensures r[0] == (if days > 0 then '+' else '-')
    ensures r[1..] == NatToString(if days < 0 then -days else days)
  {
    if days > 0 then "+" + NatToString(days)
    else if days == 0 then "-" + NatToString(0)
    else IntToString(days)
  }

  // ---------------------------------------------------------------------
  // Bullet-list item (src/index.ts:881-895)

  /** The nesting depth of an item: its leading spaces, at least one. */
  function ListDepth(spaces: nat): (d: nat)
    ensures d >= 1
    ensures spaces > 0 ==> d == spaces
  {
    if spaces == 0 then 1 else spaces
  }

  /** Depth 1 has no marker style, depth 2 circles, deeper items squares. */
  function ListStyle(depth: nat): (r: string)
    ensures depth == 1 ==> r == "list-style: unset;"
    ensures depth == 2 ==> r == "list-style: circle;"
    ensures depth != 1 && depth != 2 ==> r == "list-style: square;"
  {
    if depth == 1 then "list-style: unset;"
    else if depth == 2 then "list-style: circle;"
    else if depth == 3 then "list-style: square;"
    else "list-style: square;"
  }

  /** The rendered item: indented 20 pixels per level, with its style and data. */
  function ListItem(spaces: nat, data: string): (r: string)
    ensures StartsWith(r, "<li style=\"margin-left: " + NatToString(20 * ListDepth(spaces)) + "px;")
    ensures EndsWith(r, ListStyle(ListDepth(spaces)) + "\">" + data + "</li>")
  {
    var depth := ListDepth(spaces);
    var front := "<li style=\"margin-left: " + NatToString(20 * depth) + "px;";
    var back := ListStyle(depth) + "\">" + data + "</li>";
    ConcatAffixes(front, back);
    front + back
  }

  // ---------------------------------------------------------------------
  // Video embeds (src/index.ts:925-977)

  /** One option of the macro: `key=value` or a bare video code. */
  datatype VideoOption = KeyValue(key: string, value: string) | Code(code: string)

  /** The expression `(^[^=]+) *= *([^=]+)` applied to one option: the key is
      everything before the first `=`, the value the following run without
      `=` with its leading spaces dropped (one space is kept if it is all
      spaces). */
  function ParseOption(datum: string): VideoOption {
    var i := FirstIndex(datum, '=');
    if i == 0 || i == |datum| then Code(datum)
    else
      var rest := datum[i + 1..];
      var run := rest[..FirstIndex(rest, '=')];
      var spaces := LeadingSpaces(run);
      if run == [] then Code(datum)
      else if spaces == |run| then KeyValue(datum[..i], " ")
      else KeyValue(datum[..i], run[spaces..])
  }

  function FirstIndex(s: string, c: char): (i: nat)
    ensures i <= |s|
    ensures forall j :: 0 <= j < i ==> s[j] != c
    ensures i < |s| ==> s[i] == c
  {
    if s == [] || s[0] == c then 0 else 1 + FirstIndex(s[1..], c)
  }

  function LeadingSpaces(s: string): (n: nat)
    ensures n <= |s|
  {
    if s != [] && s[0] == ' ' then 1 + LeadingSpaces(s[1..]) else 0
  }

  /** The settings the option loop collects. */
  datatype Video = Video(code: string, start: string, end: string, width: string, height: string)

  function DefaultVideo(): Video {
    Video("", "", "", "640px", "360px")
  }

  function ApplyOption(v: Video, name: string, o: VideoOption): Video {
    match o
    case Code(c) => v.(code := c)
    case KeyValue(k, x) =>
      if k == "width" then v.(width := PxAddCheck(x))
      else if k == "height" then v.(height := PxAddCheck(x))
      else if k == "start" then v.(start := x)
      else if k == "end" then v.(end := x)
      else if k == "https://www.youtube.com/watch?v" && name == "youtube" then v.(code := x)
      else v
  }

  function ApplyOptions(v: Video, name: string, options: seq<string>): Video
    decreases |options|
  {
    if options == [] then v
    else ApplyOptions(ApplyOption(v, name, ParseOption(options[0])), name, options[1..])
  }

  function StripPrefix(s: string, p: string): (r: string)
    ensures StartsWith(s, p) ==> s == p + r
    ensures !StartsWith(s, p) ==> r == s
  {
    if StartsWith(s, p) then s[|p|..] else s
  }

  /** The embed address for a video of the given service. */
  function VideoSource(name: string, v: Video): string {
    if name == "youtube" then
      var base := "https://www.youtube.com/embed/" + StripPrefix(v.code, "https://youtu.be/");
      if v.start != "" then
        (if v.end != "" then base + "?start=" + v.start + "&end=" + v.end else base + "?start=" + v.start)
      else if v.end != "" then base + "?end=" + v.end
      else base
    else if name == "kakaotv" then
      "https://tv.kakao.com/embed/player/cliplink/" + StripPrefix(v.code, "https://tv.kakao.com/v/") + "?service=kakao_tv"
    else if name == "navertv" then
      "https://tv.naver.com/embed/" + StripPrefix(v.code, "https://tv.naver.com/v/")
    else if name == "nicovideo" then "https://embed.nicovideo.jp/watch/" + v.code
    else "https://player.vimeo.com/video/" + v.code
  }

  /** The frame a video macro produces: its address, width and height.
      The options are the items of the non-global first-item match — the
      whole match and its group, both from the first comma-separated item —
      so every later item is ignored. */
  function VideoEmbed(name: string, options: seq<string>): (r: (string, string, string))
    ensures ';' !in r.1 && ';' !in r.2
  {
    var v := ApplyOptions(DefaultVideo(), name, options);
    (VideoSource(name, v), CssSafe(v.width), CssSafe(v.height))
  }

  /** A short youtu.be address embeds the same video. */
  lemma YoutubeShortLink(id: string)
    requires '=' !in id
    ensures VideoEmbed("youtube", ["https://youtu.be/" + id]).0 == "https://www.youtube.com/embed/" + id
  {
    var d := "https://youtu.be/" + id;
    assert '=' !in d;
    assert ParseOption(d) == Code(d);
    var ds: seq<string> := [d];
    assert |ds[1..]| == 0;
    var v0 := ApplyOption(DefaultVideo(), "youtube", Code(d));
    assert ApplyOptions(DefaultVideo(), "youtube", ds) == ApplyOptions(v0, "youtube", ds[1..]);
    var v := ApplyOptions(DefaultVideo(), "youtube", ds);
    assert v == DefaultVideo().(code := d);
    assert StartsWith(d, "https://youtu.be/");
    assert d[17..] == id;
  }

  /** A numeric width option reaches the frame with its unit: the leading
      space of the whole match keeps its own copy from being recognised,
      and the group sets it. */
  lemma VideoWidthOption(w: string)
    requires IsDigits(w)
    ensures VideoEmbed("vimeo", [" width=" + w, "width=" + w]).1 == w + "px"
  {
    var a := " width=" + w;
    var b := "width=" + w;
    assert forall i :: 0 <= i < |w| ==> w[i] != '=';
    assert FirstIndex(w, '=') == |w|;
    assert w[..|w|] == w;
    assert LeadingSpaces(w) == 0;
    assert a[6] == '=' && forall k :: 0 <= k < 6 ==> a[k] != '=';
    assert FirstIndex(a, '=') == 6;
    assert a[7..] == w;
    assert ParseOption(a) == KeyValue(" width", w);
    assert b[5] == '=' && forall k :: 0 <= k < 5 ==> b[k] != '=';
    assert FirstIndex(b, '=') == 5;
    assert b[6..] == w && b[..5] == "width";
    assert ParseOption(b) == KeyValue("width", w);
    var v1 := ApplyOption(DefaultVideo(), "vimeo", ParseOption(a));
    assert v1 == DefaultVideo();
    var v2 := ApplyOption(v1, "vimeo", ParseOption(b));
    assert v2.width == w + "px";
    var ab: seq<string> := [a, b];
    var bs: seq<string> := [b];
    assert ab[0] == a && ab[1..] == bs && bs[0] == b && |bs[1..]| == 0;
    assert ApplyOptions(v1, "vimeo", bs) == ApplyOptions(v2, "vimeo", bs[1..]) == v2;
    assert ApplyOptions(DefaultVideo(), "vimeo", ab) == ApplyOptions(v1, "vimeo", bs);
    assert forall i :: 0 <= i < |w| ==> w[i] != ';';
    assert ';' !in w + "px";
  }
}
