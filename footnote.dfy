/** The footnote registry (`dataFootnote`, `manageFootnote` and
    `getToolFootnoteMake`, src/index.ts:187-215, 1499-1558). Entries are
    kept in a JavaScript object: a footnote name maps to the ordinals that
    cite it and the body given by the first citation. */
module Footnote {
  import opened Strings

  /** One entry: the ordinals citing the name, and the body. */
  datatype Entry = Entry(list: seq<string>, data: string)

  /** A JavaScript object of entries: its own keys in insertion order and
      their values. */
  datatype Registry = Registry(keys: seq<string>, entries: map<string, Entry>)

  predicate Distinct(ks: seq<string>) {
    forall i, j :: 0 <= i < j < |ks| ==> ks[i] != ks[j]
  }

  predicate Valid(r: Registry) {
    Distinct(r.keys)
    && (forall k :: k in r.entries ==> k in r.keys)
    && (forall k :: k in r.keys ==> k in r.entries)
    && (forall k :: k in r.entries ==> |r.entries[k].list| > 0)
  }

  const Empty := Registry([], map[])

  /** A registry that keeps the invariant. */
  type ValidRegistry = r: Registry | Valid(r) witness Empty

  /** One citation, with its name already resolved: the explicit name, or
      the ordinal for an anonymous footnote. */
  datatype Note = Note(name: string, num: string, text: string)

  /** The name of the n-th marker: its explicit name, or the ordinal when
      it has none (the name group is never empty when present). */
  function NameOf(explicit: string, n: nat): (name: string)
    ensures explicit != "" ==> name == explicit
    ensures explicit == "" ==> IsDigits(name) && DigitsValue(name) == n
  {
    if explicit != "" then explicit else NatToString(n)
  }

  /** The first citation of a name creates its entry; later ones only add
      their ordinal. */
  function Register(r: Registry, n: Note): (r': Registry)
    requires Valid(r)
    ensures Valid(r')
  {
    if n.name in r.entries then
      var e := r.entries[n.name];
      Registry(r.keys, r.entries[n.name := Entry(e.list + [n.num], e.data)])
    else
      Registry(r.keys + [n.name], r.entries[n.name := Entry([n.num], n.text)])
  }

  /** The citations of a run, one after another. */
  function RegisterAll(r: Registry, ns: seq<Note>): (r': Registry)
    requires Valid(r)
    ensures Valid(r')
    decreases |ns|
  {
    if ns == [] then r else RegisterAll(Register(r, ns[0]), ns[1..])
  }

  /** Registering one more note after a run. */
  lemma {:induction false} RegisterAllSnoc(r: Registry, ns: seq<Note>, n: Note)
    requires Valid(r)
    ensures RegisterAll(r, ns + [n]) == Register(RegisterAll(r, ns), n)
    decreases |ns|
  {
    if ns == [] {
      assert [n][1..] == [];
    } else {
      assert (ns + [n])[1..] == ns[1..] + [n];
      RegisterAllSnoc(Register(r, ns[0]), ns[1..], n);
    }
  }

  /** The ordinals of the citations of `name`, in order. */
  function Ordinals(ns: seq<Note>, name: string): seq<string>
    decreases |ns|
  {
    if ns == [] then []
    else (if ns[0].name == name then [ns[0].num] else []) + Ordinals(ns[1..], name)
  }

  /** Some note of `ns` cites `name`. */
  predicate Cited(ns: seq<Note>, name: string)
    decreases |ns|
  {
    ns != [] && (ns[0].name == name || Cited(ns[1..], name))
  }

  /** The body given by the first citation of `name`. */
  function FirstText(ns: seq<Note>, name: string): string
    decreases |ns|
  {
    if ns == [] then ""
    else if ns[0].name == name then ns[0].text
    else FirstText(ns[1..], name)
  }

  /** After a run of citations, a name has an entry exactly when it was
      already registered or is cited. Its list is the earlier list followed
      by the ordinals of its citations. Its body is the earlier body, or
      else the body of its first citation. */
  lemma MergeByName(r: Registry, ns: seq<Note>, name: string)
    requires Valid(r)
    ensures var r' := RegisterAll(r, ns);
      (name in r'.entries <==> name in r.entries || Cited(ns, name))
      && (name in r.entries ==>
            r'.entries[name] == Entry(r.entries[name].list + Ordinals(ns, name), r.entries[name].data))
      && (name !in r.entries && Cited(ns, name) ==>
            r'.entries[name] == Entry(Ordinals(ns, name), FirstText(ns, name)))
  {
    MergeKeepsNames(r, ns, name);
    if name in r.entries {
      MergeExisting(r, ns, name);
    } else if Cited(ns, name) {
      MergeNew(r, ns, name);
    }
  }

  lemma {:induction false} MergeKeepsNames(r: Registry, ns: seq<Note>, name: string)
    requires Valid(r)
    ensures name in RegisterAll(r, ns).entries <==> name in r.entries || Cited(ns, name)
    decreases |ns|
  {
    if ns != [] {
      MergeKeepsNames(Register(r, ns[0]), ns[1..], name);
    }
  }

  lemma {:induction false} MergeExisting(r: Registry, ns: seq<Note>, name: string)
    requires Valid(r) && name in r.entries
    ensures name in RegisterAll(r, ns).entries
    ensures RegisterAll(r, ns).entries[name] == Entry(r.entries[name].list + Ordinals(ns, name), r.entries[name].data)
    decreases |ns|
  {
    if ns == [] {
      assert r.entries[name].list + [] == r.entries[name].list;
    } else {
      var r1 := Register(r, ns[0]);
      MergeExisting(r1, ns[1..], name);
      OrdinalsCons(ns, name);
      if ns[0].name == name {
        assert r1.entries[name] == Entry(r.entries[name].list + [ns[0].num], r.entries[name].data);
        ListAssoc(r.entries[name].list, [ns[0].num], Ordinals(ns[1..], name));
      } else {
        assert r1.entries[name] == r.entries[name];
      }
    }
  }

  lemma ListAssoc(a: seq<string>, b: seq<string>, c: seq<string>)
    ensures (a + b) + c == a + (b + c)
  {
  }

  lemma {:induction false} MergeNew(r: Registry, ns: seq<Note>, name: string)
    requires Valid(r) && name !in r.entries && Cited(ns, name)
    ensures name in RegisterAll(r, ns).entries
    ensures RegisterAll(r, ns).entries[name] == Entry(Ordinals(ns, name), FirstText(ns, name))
    decreases |ns|
  {
    var r1 := Register(r, ns[0]);
    OrdinalsCons(ns, name);
    if ns[0].name == name {
      assert r1.entries[name] == Entry([ns[0].num], ns[0].text);
      MergeExisting(r1, ns[1..], name);
    } else {
      assert name !in r1.entries;
      MergeNew(r1, ns[1..], name);
    }
  }

  lemma OrdinalsCons(ns: seq<Note>, name: string)
    requires ns != []
    ensures ns[0].name == name ==> Ordinals(ns, name) == [ns[0].num] + Ordinals(ns[1..], name)
    ensures ns[0].name != name ==> Ordinals(ns, name) == Ordinals(ns[1..], name)
  {
    if ns[0].name != name {
      assert [] + Ordinals(ns[1..], name) == Ordinals(ns[1..], name);
    }
  }


  /** From an empty registry: a cited name gets the list of its ordinals
      and the body of its first citation; nothing else is registered. */
  lemma FirstBodyWins(ns: seq<Note>, name: string)
    ensures var r := RegisterAll(Empty, ns);
      (name in r.entries <==> Cited(ns, name))
      && (Cited(ns, name) ==> r.entries[name] == Entry(Ordinals(ns, name), FirstText(ns, name)))
  {
    MergeByName(Empty, ns, name);
  }

  // ---------------------------------------------------------------------
  // The lookup as written

  /** Property names every object inherits from `Object.prototype`; looking
      one of them up yields a truthy value although no entry exists. */
  const Inherited: set<string> := {
    "constructor", "hasOwnProperty", "isPrototypeOf", "propertyIsEnumerable",
    "toLocaleString", "toString", "valueOf", "__proto__",
    "__defineGetter__", "__defineSetter__", "__lookupGetter__", "__lookupSetter__"
  }

  /** A registration that may throw. */
  datatype Outcome = Registered(r: Registry) | TypeError

  /** The registration as written: the existence test is
      `this.dataFootnote[name]`, which is also truthy for an inherited
      name; its `list` is then undefined and `push` throws. */
  function RegisterAsWritten(r: Registry, n: Note): (o: Outcome)
    requires Valid(r)
    ensures o.Registered? ==> o.r == Register(r, n)
    ensures o.TypeError? <==> n.name !in r.entries && n.name in Inherited
  {
    if n.name in r.entries then Registered(Register(r, n))
    else if n.name in Inherited then TypeError
    else Registered(Register(r, n))
  }

  /** A footnote named `toString` stops the render, where a new entry was
      meant. */
  lemma InheritedNameThrows()
    ensures RegisterAsWritten(Empty, Note("toString", "1", "x")).TypeError?
    ensures Register(Empty, Note("toString", "1", "x")).entries["toString"] == Entry(["1"], "x")
  {
  }

  // ---------------------------------------------------------------------
  // Enumeration order of the keys (`for ... in`)

  /** A canonical array index: integer-like keys that objects enumerate
      first, in ascending order (section 10.1.11.1 of ECMA-262). */
  predicate IsIndexKey(k: string) {
    IsDigits(k) && (|k| == 1 || k[0] != '0') && DigitsValue(k) < 4294967295
  }

  predicate AllIndex(s: seq<string>) {
    forall i :: 0 <= i < |s| ==> IsIndexKey(s[i])
  }

  predicate SortedByValue(s: seq<string>)
    requires AllIndex(s)
  {
    forall i, j :: 0 <= i < j < |s| ==> DigitsValue(s[i]) <= DigitsValue(s[j])
  }

  function Insert(k: string, s: seq<string>): (r: seq<string>)
    requires IsIndexKey(k) && AllIndex(s)
    ensures AllIndex(r) && multiset(r) == multiset(s) + multiset{k}
  {
    if s == [] || DigitsValue(k) <= DigitsValue(s[0]) then [k] + s
    else
      assert s == [s[0]] + s[1..];
      [s[0]] + Insert(k, s[1..])
  }

  lemma {:induction false} InsertSorted(k: string, s: seq<string>)
    requires IsIndexKey(k) && AllIndex(s) && SortedByValue(s)
    ensures SortedByValue(Insert(k, s))
    decreases |s|
  {
    if s != [] && DigitsValue(k) > DigitsValue(s[0]) {
      var t := Insert(k, s[1..]);
      InsertSorted(k, s[1..]);
      InsertAbove(k, s[1..], DigitsValue(s[0]));
      assert Insert(k, s) == [s[0]] + t;
    }
  }

  /** A lower bound of the key and of every element bounds the result. */
  lemma {:induction false} InsertAbove(k: string, s: seq<string>, lo: nat)
    requires IsIndexKey(k) && AllIndex(s)
    requires lo <= DigitsValue(k) && forall i :: 0 <= i < |s| ==> lo <= DigitsValue(s[i])
    ensures forall i :: 0 <= i < |Insert(k, s)| ==> lo <= DigitsValue(Insert(k, s)[i])
    decreases |s|
  {
    if s != [] && DigitsValue(k) > DigitsValue(s[0]) {
      InsertAbove(k, s[1..], lo);
    }
  }

  function SortIndex(s: seq<string>): (r: seq<string>)
    requires AllIndex(s)
    ensures AllIndex(r) && SortedByValue(r) && multiset(r) == multiset(s)
  {
    if s == [] then []
    else
      assert s == [s[0]] + s[1..];
      var t := SortIndex(s[1..]);
      InsertSorted(s[0], t);
      Insert(s[0], t)
  }

  function IndexKeys(ks: seq<string>): (r: seq<string>)
    ensures AllIndex(r)
  {
    if ks == [] then []
    else (if IsIndexKey(ks[0]) then [ks[0]] else []) + IndexKeys(ks[1..])
  }

  function OtherKeys(ks: seq<string>): (r: seq<string>)
    ensures forall i :: 0 <= i < |r| ==> !IsIndexKey(r[i])
  {
    if ks == [] then []
    else (if IsIndexKey(ks[0]) then [] else [ks[0]]) + OtherKeys(ks[1..])
  }

  lemma {:induction false} SplitKeys(ks: seq<string>)
    ensures multiset(IndexKeys(ks)) + multiset(OtherKeys(ks)) == multiset(ks)
    decreases |ks|
  {
    if ks != [] {
      SplitKeys(ks[1..]);
      assert ks == [ks[0]] + ks[1..];
    }
  }

  /** The order in which `for ... in` visits the keys: array indices in
      ascending order, then the other keys in insertion order. */
  function Order(ks: seq<string>): seq<string> {
    SortIndex(IndexKeys(ks)) + OtherKeys(ks)
  }

  /** Every key is visited once, and index keys come first, ascending. */
  lemma OrderFacts(ks: seq<string>)
    ensures multiset(Order(ks)) == multiset(ks)
    ensures forall i, j :: 0 <= i < j < |Order(ks)| && IsIndexKey(Order(ks)[j]) ==> IsIndexKey(Order(ks)[i])
    ensures forall i, j :: 0 <= i < j < |Order(ks)| && IsIndexKey(Order(ks)[j]) ==>
      DigitsValue(Order(ks)[i]) <= DigitsValue(Order(ks)[j])
  {
    SplitKeys(ks);
    var a := SortIndex(IndexKeys(ks));
    var o := Order(ks);
    forall j | |a| <= j < |o| ensures !IsIndexKey(o[j]) {
      assert o[j] == OtherKeys(ks)[j - |a|];
    }
    forall i, j | 0 <= i < j < |o| && IsIndexKey(o[j])
      ensures IsIndexKey(o[i]) && DigitsValue(o[i]) <= DigitsValue(o[j])
    {
      assert j < |a|;
      assert o[i] == a[i] && o[j] == a[j];
    }
  }

  lemma ExampleKeys()
    ensures IsIndexKey("1") && IsIndexKey("2") && !IsIndexKey("a") && !IsIndexKey("b")
    ensures DigitsValue("1") == 1 && DigitsValue("2") == 2
  {
    assert "2"[..0] == [] && "1"[..0] == [];
    assert !IsDigit('b') && !IsDigit('a');
  }

  lemma ExampleSplit()
    ensures IndexKeys(["b", "2", "a", "1"]) == ["2", "1"]
    ensures OtherKeys(["b", "2", "a", "1"]) == ["b", "a"]
  {
    ExampleKeys();
    var ks := ["b", "2", "a", "1"];
    assert ks[1..] == ["2", "a", "1"] && ks[1..][1..] == ["a", "1"] && ks[1..][1..][1..] == ["1"];
    assert ks[1..][1..][1..][1..] == [];
  }

  lemma ExampleSort()
    ensures AllIndex(["2", "1"]) && SortIndex(["2", "1"]) == ["1", "2"]
  {
    ExampleKeys();
    var one, two := "1", "2";
    var s := [two, one];
    assert s[1..] == [one] && [one][1..] == [];
    var t := SortIndex([one]);
    assert t == Insert(one, SortIndex([]));
    assert t == [one];
    assert Insert(two, [one]) == [one] + Insert(two, []);
    assert SortIndex(s) == Insert(two, t);
  }

  /** Anonymous footnotes (named by their ordinal) come before named ones,
      whatever the insertion order. */
  lemma OrderExample()
    ensures Order(["b", "2", "a", "1"]) == ["1", "2", "b", "a"]
  {
    ExampleSplit();
    ExampleSort();
  }

  // ---------------------------------------------------------------------
  // The footnote list (`getToolFootnoteMake`)

  function Open(): string { "<div class=\"opennamu_footnote\">" }

  /** The back links of an entry cited more than once. */
  function BackLinks(list: seq<string>, inc: string): string {
    if list == [] then "" else BackLink(list[0], inc) + BackLinks(list[1..], inc)
  }

  /** The back link to the citation with ordinal `b`. */
  function BackLink(b: string, inc: string): string {
    "<sup><a id=\"" + inc + "fn_" + b + "\" href=\"#" + inc + "rfn_" + b + "\">(" + b + ")</a></sup> "
  }

  /** The text of one entry, after its opening `<div>` or `<br>`. */
  function Item(k: string, e: Entry, inc: string): string
    requires |e.list| > 0
  {
    var head :=
      if |e.list| > 1 then "(" + k + ") " + BackLinks(e.list, inc)
      else "<a id=\"" + inc + "fn_" + e.list[0] + "\" href=\"#" + inc + "rfn_" + e.list[0] + "\">(" + k + ") </a> ";
    head + "<footnote_title target=\"" + inc + "fn_" + e.list[0] + "\">" + e.data + "</footnote_title>"
  }

  /** The loop over the keys in enumeration order: an empty text opens the
      list, a non-empty one gets a `<br>` before the next entry. */
  function MakeFrom(acc: string, ks: seq<string>, entries: map<string, Entry>, inc: string): string
    requires forall k :: k in ks ==> k in entries && |entries[k].list| > 0
    decreases |ks|
  {
    if ks == [] then acc
    else
      assert ks[0] in ks;
      MakeFrom(acc + (if acc == "" then Open() else "<br>") + Item(ks[0], entries[ks[0]], inc), ks[1..], entries, inc)
  }

  /** The whole list, closed with `</div>` unless it is empty. */
  function Make(r: Registry, inc: string): string
    requires Valid(r)
  {
    OrderFacts(r.keys);
    assert forall k :: k in Order(r.keys) ==> k in r.keys by {
      forall k | k in Order(r.keys) ensures k in r.keys {
        assert k in multiset(Order(r.keys));
      }
    }
    var d := MakeFrom("", Order(r.keys), r.entries, inc);
    if d != "" then d + "</div>" else d
  }

  lemma {:induction false} MakeFromGrows(acc: string, ks: seq<string>, entries: map<string, Entry>, inc: string)
    requires forall k :: k in ks ==> k in entries && |entries[k].list| > 0
    ensures StartsWith(MakeFrom(acc, ks, entries, inc), acc)
    ensures ks != [] ==> MakeFrom(acc, ks, entries, inc) != ""
    decreases |ks|
  {
    if ks != [] {
      assert ks[0] in ks;
      var acc' := acc + (if acc == "" then Open() else "<br>") + Item(ks[0], entries[ks[0]], inc);
      MakeFromGrows(acc', ks[1..], entries, inc);
      assert acc'[..|acc|] == acc;
      var m := MakeFrom(acc', ks[1..], entries, inc);
      assert m[..|acc'|] == acc';
      assert m[..|acc|] == acc'[..|acc|];
    }
  }

  /** The list is empty exactly when the registry is. */
  lemma MakeEmptyIff(r: Registry, inc: string)
    requires Valid(r)
    ensures Make(r, inc) == "" <==> r.keys == []
  {
    OrderFacts(r.keys);
    assert |Order(r.keys)| == |r.keys| by {
      assert |multiset(Order(r.keys))| == |multiset(r.keys)|;
    }
    assert forall k :: k in Order(r.keys) ==> k in r.keys by {
      forall k | k in Order(r.keys) ensures k in r.keys {
        assert k in multiset(Order(r.keys));
      }
    }
    MakeFromGrows("", Order(r.keys), r.entries, inc);
  }
}
