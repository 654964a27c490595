/**
  The placeholder substitution of `getText`: four `String.replace` passes,
  one per placeholder, applied to the configured text in a fixed order.

  A text with placeholders in it is described by a `Template`: its leading
  plain text, then each placeholder with the plain text that follows it.
  `SubstituteTemplate` states when the four passes give exactly the
  template with every placeholder replaced by its value, and
  `SubstituteGapNamedMissing` shows why a condition is needed at all.
 */
module Placeholders {
  import opened JavaString

  /** The four placeholders `getText` fills in. */
  datatype Key = PluginsKey | MissingKey | MissingSizeKey | RequiredSizeKey

  function Name(k: Key): string {
    match k
    case PluginsKey => "plugins"
    case MissingKey => "missing"
    case MissingSizeKey => "missingsize"
    case RequiredSizeKey => "requiredsize"
  }

  /** The placeholder as a text writes it: its name between two `%`. */
  function Placeholder(k: Key): string {
    "%" + Name(k) + "%"
  }

  /**
    `getText`'s substitutions in the order the code applies them:
    `%plugins%`, `%missing%`, `%missingsize%`, `%requiredsize%`.
   */
  function Substitute(template: string, plugins: string, missingList: string, missingSize: nat, requiredSize: nat): string {
    var withPlugins := Replace(template, Placeholder(PluginsKey), plugins);
    var withMissing := Replace(withPlugins, Placeholder(MissingKey), missingList);
    var withMissingSize := Replace(withMissing, Placeholder(MissingSizeKey), NatToString(missingSize));
    Replace(withMissingSize, Placeholder(RequiredSizeKey), NatToString(requiredSize))
  }

  /** Text without a `%`. */
  predicate Plain(s: string) {
    '%' !in s
  }

  /** Every character is a lower-case ASCII letter. */
  predicate AllLower(s: string) {
    forall c :: c in s ==> 'a' <= c <= 'z'
  }

  /**
    Plain text that no placeholder name can be read into: empty, or holding
    a character that is not a lower-case letter (a space, a digit, a colour
    code, punctuation).
   */
  predicate Separating(s: string) {
    Plain(s) && (s == [] || !AllLower(s))
  }

  lemma NameShape(k: Key)
    ensures |Name(k)| > 0 && Plain(Name(k)) && AllLower(Name(k))
  {
  }

  lemma NamesDiffer(j: Key, k: Key)
    requires j != k
    ensures Name(j) != Name(k)
  {
  }

  /** Separating text is never a placeholder name. */
  lemma SeparatingNotName(s: string, k: Key)
    requires Separating(s)
    ensures s != Name(k)
  {
    NameShape(k);
  }

  /** Separating text stays separating when more of it is appended. */
  lemma SeparatingAppend(a: string, b: string)
    requires Separating(a) && Separating(b)
    ensures Separating(a + b)
  {
    if a == [] {
      assert a + b == b;
    } else {
      var c :| c in a && !('a' <= c <= 'z');
      assert c in a + b;
    }
  }

  /** A printed count is separating: it is made of digits. */
  lemma NatToStringSeparating(n: nat)
    ensures Separating(NatToString(n))
  {
    var s := NatToString(n);
    assert s[0] in s && '0' <= s[0] <= '9';
    assert '%' !in s by {
      forall i | 0 <= i < |s| ensures s[i] != '%' {
        assert '0' <= s[i] <= '9';
      }
    }
  }

  /**
    A `%` followed by plain text `m` and then by another `%` or the end is
    no match of `%n%`, unless `m` is `n` and a `%` follows.
   */
  lemma NoMatchAfterPercent(m: string, rest: string, n: string)
    requires Plain(m) && Plain(n)
    requires rest == [] || (rest[0] == '%' && m != n)
    ensures !StartsWith("%" + m + rest, "%" + n + "%")
  {
    var s := "%" + m + rest;
    var t := "%" + n + "%";
    if |t| <= |s| {
      var j: int;
      if |m| < |n| {
        j := |m| + 1;
        assert s[j] == rest[0];
        assert t[j] == n[|m|] && n[|m|] in n;
      } else if |m| > |n| {
        j := |n| + 1;
        assert s[j] == m[|n|] && m[|n|] in m;
      } else {
        var i :| 0 <= i < |m| && m[i] != n[i];
        j := i + 1;
        assert s[j] == m[i] && t[j] == n[i];
      }
      assert s[..|t|][j] != t[j];
    }
  }

  /**
    Reading a `%`-delimited word other than the target's name, `replace`
    copies the opening `%` and the word; the closing `%` may still begin a
    match.
   */
  lemma SkipOtherWord(m: string, n: string, rest: string, replacement: string)
    requires Plain(m) && Plain(n) && m != n
    ensures Replace("%" + m + "%" + rest, "%" + n + "%", replacement)
         == "%" + m + Replace("%" + rest, "%" + n + "%", replacement)
  {
    ThroughTail(m, "%" + rest, n, replacement);
    assert "%" + m + "%" + rest == "%" + m + ("%" + rest);
    ReplacePlainPrefix(m, "%" + rest, "%" + n + "%", replacement);
  }

  /**
    A `%` followed by plain text and then by another `%` or the end starts
    no match, unless that text is exactly the name being replaced and
    another `%` follows; `replace` copies the `%`.
   */
  lemma ThroughTail(tail: string, rest: string, n: string, replacement: string)
    requires Plain(tail) && Plain(n)
    requires rest == [] || (rest[0] == '%' && tail != n)
    ensures Replace("%" + tail + rest, "%" + n + "%", replacement)
         == "%" + Replace(tail + rest, "%" + n + "%", replacement)
  {
    var s := "%" + tail + rest;
    NoMatchAfterPercent(tail, rest, n);
    ReplaceSkipFirst(s, "%" + n + "%", replacement);
    assert s[1..] == tail + rest;
  }

  /**
    On plain text, a `%`-delimited word other than the target's name and the
    plain text after it, `replace` copies the text and the word and goes on
    with what follows.
   */
  lemma ReplaceThroughOther(head: string, m: string, tail: string, after: string, n: string, replacement: string)
    requires Plain(head) && Plain(m) && Plain(n) && Plain(tail) && m != n
    requires after == [] || (after[0] == '%' && tail != n)
    ensures Replace(head + ("%" + m + "%") + tail + after, "%" + n + "%", replacement)
         == head + ("%" + m + "%") + Replace(tail + after, "%" + n + "%", replacement)
    ensures Replace(head + ("%" + m + "%") + tail + after, "%" + n + "%", replacement)
         == head + ("%" + m + "%") + (tail + Replace(after, "%" + n + "%", replacement))
  {
    var target := "%" + n + "%";
    var x := tail + after;
    var word := "%" + m + "%";
    var replaced := Replace(x, target, replacement);
    AppendAssoc(head + word, tail, after);
    AppendAssoc(head, word, x);
    ReplacePlainPrefix(head, word + x, target, replacement);
    SkipOtherWord(m, n, x, replacement);
    ThroughTail(tail, after, n, replacement);
    AppendAssoc("%", tail, after);
    AppendAssoc(head, word, replaced);
    AppendAssoc("%" + m, "%", replaced);
    ReplacePlainPrefix(tail, after, target, replacement);
  }

  /** A placeholder and the plain text after it. */
  datatype Slot = Slot(key: Key, tail: string)

  /** A text as leading plain text followed by placeholders, each with the text after it. */
  datatype Template = Template(head: string, slots: seq<Slot>)

  function RenderSlots(slots: seq<Slot>): string {
    if slots == [] then "" else Placeholder(slots[0].key) + slots[0].tail + RenderSlots(slots[1..])
  }

  /** The text a template stands for, with its placeholders written out. */
  function Render(t: Template): string {
    t.head + RenderSlots(t.slots)
  }

  /** What each placeholder is to be replaced by. */
  datatype Values = Values(plugins: string, missing: string, missingSize: string, requiredSize: string) {
    function Of(k: Key): string {
      match k
      case PluginsKey => plugins
      case MissingKey => missing
      case MissingSizeKey => missingSize
      case RequiredSizeKey => requiredSize
    }
  }

  function ExpandSlots(slots: seq<Slot>, values: Values): string {
    if slots == [] then "" else values.Of(slots[0].key) + slots[0].tail + ExpandSlots(slots[1..], values)
  }

  /** The intended result: the template with every placeholder replaced by its value. */
  function Expand(t: Template, values: Values): string {
    t.head + ExpandSlots(t.slots, values)
  }

  function Keys(slots: seq<Slot>): set<Key> {
    if slots == [] then {} else {slots[0].key} + Keys(slots[1..])
  }

  /** Every tail is plain, and none but the last is the name `k`. */
  predicate AvoidsName(slots: seq<Slot>, k: Key) {
    slots == [] ||
    (Plain(slots[0].tail) && (|slots| > 1 ==> slots[0].tail != Name(k)) && AvoidsName(slots[1..], k))
  }

  /** Every tail is plain, and every tail but the last is separating. */
  predicate Shaped(slots: seq<Slot>) {
    slots == [] ||
    (Plain(slots[0].tail) && (|slots| > 1 ==> Separating(slots[0].tail)) && Shaped(slots[1..]))
  }

  /** The templates the substitution handles as intended. */
  predicate WellFormed(t: Template) {
    Plain(t.head) && Shaped(t.slots)
  }

  lemma {:induction false} ShapedAvoids(slots: seq<Slot>, k: Key)
    requires Shaped(slots)
    ensures AvoidsName(slots, k)
    decreases |slots|
  {
    if slots != [] {
      if |slots| > 1 {
        SeparatingNotName(slots[0].tail, k);
      }
      ShapedAvoids(slots[1..], k);
    }
  }

  /**
    What one `replace` pass for placeholder `k` leaves: each `k` slot is
    dropped, its value and tail joining the text before it.
   */
  function Pass(t: Template, k: Key, replacement: string): (p: Template)
    ensures Keys(p.slots) == Keys(t.slots) - {k}
    ensures t.slots == [] ==> p == t
    decreases |t.slots|
  {
    if t.slots == [] then t
    else if t.slots[0].key == k then
      Pass(Template(t.head + replacement + t.slots[0].tail, t.slots[1..]), k, replacement)
    else
      var rest := Pass(Template(t.slots[0].tail, t.slots[1..]), k, replacement);
      assert ([Slot(t.slots[0].key, rest.head)] + rest.slots)[1..] == rest.slots;
      Template(t.head, [Slot(t.slots[0].key, rest.head)] + rest.slots)
  }

  /** A pass for a placeholder the template does not contain changes nothing. */
  lemma {:induction false} PassAbsent(t: Template, k: Key, replacement: string)
    requires k !in Keys(t.slots)
    ensures Pass(t, k, replacement) == t
    decreases |t.slots|
  {
    if t.slots != [] {
      var t2 := Template(t.slots[0].tail, t.slots[1..]);
      PassAbsent(t2, k, replacement);
      assert [Slot(t.slots[0].key, t2.head)] + t2.slots == t.slots;
    }
  }

  /** The pass meets a `k` placeholder first: its value replaces it, and the scan goes on after it. */
  lemma RenderMatch(head: string, tail: string, rest: seq<Slot>, k: Key, replacement: string)
    requires Plain(head) && Plain(tail) && Plain(replacement)
    ensures Replace(Render(Template(head, [Slot(k, tail)] + rest)), Placeholder(k), replacement)
         == Replace(Render(Template(head + replacement + tail, rest)), Placeholder(k), replacement)
  {
    var target := Placeholder(k);
    var after := RenderSlots(rest);
    assert ([Slot(k, tail)] + rest)[1..] == rest;
    assert RenderSlots([Slot(k, tail)] + rest) == target + tail + after;
    AppendAssoc(head, target + tail, after);
    AppendAssoc(head, target, tail);
    ReplaceMatchAfterPlain(head, tail, after, target, replacement);
    ReplacePlainPrefix(head + replacement + tail, after, target, replacement);
  }

  /**
    The pass meets another placeholder first: it is copied, and the scan goes
    on with the text after it.
   */
  lemma RenderOther(head: string, j: Key, tail: string, rest: seq<Slot>, k: Key, replacement: string)
    requires j != k && Plain(head) && Plain(tail)
    requires rest != [] ==> tail != Name(k)
    ensures Replace(Render(Template(head, [Slot(j, tail)] + rest)), Placeholder(k), replacement)
         == head + Placeholder(j) + Replace(Render(Template(tail, rest)), Placeholder(k), replacement)
  {
    var after := RenderSlots(rest);
    NameShape(j);
    NameShape(k);
    NamesDiffer(j, k);
    assert ([Slot(j, tail)] + rest)[1..] == rest;
    assert RenderSlots([Slot(j, tail)] + rest) == Placeholder(j) + tail + after;
    AppendAssoc(head, Placeholder(j) + tail, after);
    AppendAssoc(head, Placeholder(j), tail);
    assert rest != [] ==> after[0] == '%';
    ReplaceThroughOther(head, Name(j), tail, after, Name(k), replacement);
  }

  /** How a pass renders when the first placeholder is another one. */
  lemma PassOtherRender(t: Template, k: Key, replacement: string)
    requires t.slots != [] && t.slots[0].key != k
    ensures Render(Pass(t, k, replacement))
         == t.head + Placeholder(t.slots[0].key) + Render(Pass(Template(t.slots[0].tail, t.slots[1..]), k, replacement))
  {
    var p2 := Pass(Template(t.slots[0].tail, t.slots[1..]), k, replacement);
    var slots := [Slot(t.slots[0].key, p2.head)] + p2.slots;
    assert Pass(t, k, replacement) == Template(t.head, slots);
    assert slots[0].key == t.slots[0].key && slots[0].tail == p2.head && slots[1..] == p2.slots;
    var word := Placeholder(t.slots[0].key);
    assert RenderSlots(slots) == word + p2.head + RenderSlots(p2.slots);
    AppendAssoc(word, p2.head, RenderSlots(p2.slots));
    AppendAssoc(t.head, word, Render(p2));
  }

  /** `replace` of placeholder `k` on a rendered template renders `Pass`. */
  lemma {:induction false} PassRender(t: Template, k: Key, replacement: string)
    requires Plain(t.head) && AvoidsName(t.slots, k)
    requires k in Keys(t.slots) ==> Plain(replacement)
    ensures Replace(Render(t), Placeholder(k), replacement) == Render(Pass(t, k, replacement))
    decreases |t.slots|
  {
    if t.slots == [] {
      ReplacePlainPrefix(t.head, "", Placeholder(k), replacement);
      assert Render(t) == t.head + "";
    } else {
      var s := t.slots[0];
      var rest := t.slots[1..];
      assert t.slots == [s] + rest;
      if s.key == k {
        RenderMatch(t.head, s.tail, rest, k, replacement);
        PassRender(Template(t.head + replacement + s.tail, rest), k, replacement);
      } else {
        RenderOther(t.head, s.key, s.tail, rest, k, replacement);
        PassRender(Template(s.tail, rest), k, replacement);
        PassOtherRender(t, k, replacement);
      }
    }
  }

  /**
    A pass keeps the template well formed, provided the value is
    separating wherever it is put into the text.
   */
  lemma {:induction false} PassShape(t: Template, k: Key, replacement: string)
    requires WellFormed(t)
    requires k in Keys(t.slots) ==> Separating(replacement)
    ensures WellFormed(Pass(t, k, replacement))
    ensures Separating(t.head) && Pass(t, k, replacement).slots != [] ==> Separating(Pass(t, k, replacement).head)
    decreases |t.slots|
  {
    if t.slots != [] {
      var s := t.slots[0];
      var rest := t.slots[1..];
      if s.key == k {
        var t2 := Template(t.head + replacement + s.tail, rest);
        PassShape(t2, k, replacement);
        if Separating(t.head) && Pass(t2, k, replacement).slots != [] {
          SeparatingAppend(t.head, replacement);
          SeparatingAppend(t.head + replacement, s.tail);
        }
      } else {
        var t2 := Template(s.tail, rest);
        PassShape(t2, k, replacement);
      }
    }
  }

  /** A pass that puts in the placeholder's own value keeps the intended result. */
  lemma {:induction false} PassExpand(t: Template, k: Key, values: Values)
    ensures Expand(Pass(t, k, values.Of(k)), values) == Expand(t, values)
    decreases |t.slots|
  {
    if t.slots != [] {
      var s := t.slots[0];
      var rest := t.slots[1..];
      var v := values.Of(s.key);
      var after := ExpandSlots(rest, values);
      if s.key == k {
        var t2 := Template(t.head + v + s.tail, rest);
        PassExpand(t2, k, values);
        AppendAssoc(t.head + v, s.tail, after);
        AppendAssoc(t.head, v, s.tail + after);
        AppendAssoc(v, s.tail, after);
      } else {
        var t2 := Template(s.tail, rest);
        PassExpand(t2, k, values);
        var p2 := Pass(t2, k, values.Of(k));
        var slots := [Slot(s.key, p2.head)] + p2.slots;
        assert Pass(t, k, values.Of(k)) == Template(t.head, slots);
        assert slots[0].key == s.key && slots[0].tail == p2.head && slots[1..] == p2.slots;
        AppendAssoc(v, p2.head, ExpandSlots(p2.slots, values));
        AppendAssoc(v, s.tail, after);
      }
    }
  }

  lemma NoKeysNoSlots(slots: seq<Slot>)
    requires Keys(slots) == {}
    ensures slots == []
  {
  }

  /** One pass with the placeholder's value: what it renders, and that nothing else is lost. */
  lemma Step(t: Template, k: Key, values: Values)
    requires WellFormed(t)
    requires k in Keys(t.slots) ==> Separating(values.Of(k))
    ensures Replace(Render(t), Placeholder(k), values.Of(k)) == Render(Pass(t, k, values.Of(k)))
    ensures WellFormed(Pass(t, k, values.Of(k)))
    ensures Expand(Pass(t, k, values.Of(k)), values) == Expand(t, values)
  {
    ShapedAvoids(t.slots, k);
    PassRender(t, k, values.Of(k));
    PassShape(t, k, values.Of(k));
    PassExpand(t, k, values);
  }

  /**
    On a well-formed template, the four passes give exactly the template with
    every placeholder replaced by its value. The list values must be
    separating when their placeholder is used; the counts always are.
   */
  lemma SubstituteTemplate(t: Template, plugins: string, missingList: string, missingSize: nat, requiredSize: nat)
    requires WellFormed(t)
    requires PluginsKey in Keys(t.slots) ==> Separating(plugins)
    requires MissingKey in Keys(t.slots) ==> Separating(missingList)
    ensures Substitute(Render(t), plugins, missingList, missingSize, requiredSize)
         == Expand(t, Values(plugins, missingList, NatToString(missingSize), NatToString(requiredSize)))
  {
    var values := Values(plugins, missingList, NatToString(missingSize), NatToString(requiredSize));
    NatToStringSeparating(missingSize);
    NatToStringSeparating(requiredSize);
    Step(t, PluginsKey, values);
    var t1 := Pass(t, PluginsKey, plugins);
    Step(t1, MissingKey, values);
    var t2 := Pass(t1, MissingKey, missingList);
    Step(t2, MissingSizeKey, values);
    var t3 := Pass(t2, MissingSizeKey, NatToString(missingSize));
    Step(t3, RequiredSizeKey, values);
    var t4 := Pass(t3, RequiredSizeKey, NatToString(requiredSize));
    assert Keys(t4.slots) == {} by {
      forall k: Key ensures k !in Keys(t4.slots) {
        match k
        case PluginsKey =>
        case MissingKey =>
        case MissingSizeKey =>
        case RequiredSizeKey =>
      }
    }
    NoKeysNoSlots(t4.slots);
    assert Render(t4) == t4.head == Expand(t4, values);
  }

  /** Text without a `%` passes through the substitutions unchanged. */
  lemma SubstitutePlainText(text: string, plugins: string, missingList: string, missingSize: nat, requiredSize: nat)
    ensures Plain(text) ==> Substitute(text, plugins, missingList, missingSize, requiredSize) == text
  {
    if Plain(text) {
      var t := Template(text, []);
      assert Render(t) == text && Expand(t, Values(plugins, missingList, NatToString(missingSize), NatToString(requiredSize))) == text;
      SubstituteTemplate(t, plugins, missingList, missingSize, requiredSize);
    }
  }

  /** `%missingsize%` anywhere in plain text becomes the decimal count of missing plugins. */
  lemma SubstituteMissingSize(before: string, after: string, plugins: string, missingList: string, missingSize: nat, requiredSize: nat)
    requires Plain(before) && Plain(after)
    ensures Substitute(before + Placeholder(MissingSizeKey) + after, plugins, missingList, missingSize, requiredSize)
         == before + NatToString(missingSize) + after
  {
    var t := Template(before, [Slot(MissingSizeKey, after)]);
    var values := Values(plugins, missingList, NatToString(missingSize), NatToString(requiredSize));
    assert t.slots[1..] == [];
    assert Keys(t.slots) == {MissingSizeKey};
    assert WellFormed(t);
    assert RenderSlots(t.slots) == Placeholder(MissingSizeKey) + after + "";
    assert ExpandSlots(t.slots, values) == values.Of(MissingSizeKey) + after + "";
    assert Render(t) == before + Placeholder(MissingSizeKey) + after;
    assert Expand(t, values) == before + NatToString(missingSize) + after;
    SubstituteTemplate(t, plugins, missingList, missingSize, requiredSize);
  }

  /** `%requiredsize%` anywhere in plain text becomes the decimal count of required plugins. */
  lemma SubstituteRequiredSize(before: string, after: string, plugins: string, missingList: string, missingSize: nat, requiredSize: nat)
    requires Plain(before) && Plain(after)
    ensures Substitute(before + Placeholder(RequiredSizeKey) + after, plugins, missingList, missingSize, requiredSize)
         == before + NatToString(requiredSize) + after
  {
    var t := Template(before, [Slot(RequiredSizeKey, after)]);
    var values := Values(plugins, missingList, NatToString(missingSize), NatToString(requiredSize));
    assert t.slots[1..] == [];
    assert Keys(t.slots) == {RequiredSizeKey};
    assert WellFormed(t);
    assert RenderSlots(t.slots) == Placeholder(RequiredSizeKey) + after + "";
    assert ExpandSlots(t.slots, values) == values.Of(RequiredSizeKey) + after + "";
    assert Render(t) == before + Placeholder(RequiredSizeKey) + after;
    assert Expand(t, values) == before + NatToString(requiredSize) + after;
    SubstituteTemplate(t, plugins, missingList, missingSize, requiredSize);
  }

  lemma JoinTwo(a: string, b: string, c: string, d: string, e: string)
    ensures a + (b + c + (d + e + "")) == a + b + c + d + e
  {
    assert d + e + "" == d + e;
    AppendAssoc(a, b + c, d + e);
    AppendAssoc(a, b, c);
    AppendAssoc(a + b + c, d, e);
  }

  /** Both counts in one text, separated by text no placeholder name can be read into. */
  lemma SubstituteCounts(before: string, between: string, after: string,
                         plugins: string, missingList: string, missingSize: nat, requiredSize: nat)
    requires Plain(before) && Separating(between) && Plain(after)
    ensures Substitute(before + Placeholder(MissingSizeKey) + between + Placeholder(RequiredSizeKey) + after,
                       plugins, missingList, missingSize, requiredSize)
         == before + NatToString(missingSize) + between + NatToString(requiredSize) + after
  {
    var second := [Slot(RequiredSizeKey, after)];
    var t := Template(before, [Slot(MissingSizeKey, between)] + second);
    var values := Values(plugins, missingList, NatToString(missingSize), NatToString(requiredSize));
    assert second[1..] == [] && t.slots[1..] == second;
    assert Keys(second) == {RequiredSizeKey};
    assert Keys(t.slots) == {MissingSizeKey, RequiredSizeKey};
    assert WellFormed(t);
    assert RenderSlots(second) == Placeholder(RequiredSizeKey) + after + "";
    assert RenderSlots(t.slots) == Placeholder(MissingSizeKey) + between + RenderSlots(second);
    assert ExpandSlots(second, values) == values.Of(RequiredSizeKey) + after + "";
    assert ExpandSlots(t.slots, values) == values.Of(MissingSizeKey) + between + ExpandSlots(second, values);
    JoinTwo(before, Placeholder(MissingSizeKey), between, Placeholder(RequiredSizeKey), after);
    JoinTwo(before, NatToString(missingSize), between, NatToString(requiredSize), after);
    SubstituteTemplate(t, plugins, missingList, missingSize, requiredSize);
  }

  /**
    Why the text between two placeholders must be separating: in
    `%missingsize%missing%requiredsize%` the closing `%` of the first
    placeholder, the word `missing` and the opening `%` of the second read
    as `%missing%`, which the second pass replaces, so neither count is
    filled in.
   */
  lemma SubstituteGapNamedMissing(plugins: string, missingList: string, missingSize: nat, requiredSize: nat)
    requires Plain(missingList)
    ensures Substitute(Placeholder(MissingSizeKey) + Name(MissingKey) + Placeholder(RequiredSizeKey),
                       plugins, missingList, missingSize, requiredSize)
         == "%" + (Name(MissingSizeKey) + missingList + Name(RequiredSizeKey)) + "%"
    ensures Substitute(Placeholder(MissingSizeKey) + Name(MissingKey) + Placeholder(RequiredSizeKey),
                       plugins, missingList, missingSize, requiredSize)
         != NatToString(missingSize) + Name(MissingKey) + NatToString(requiredSize)
  {
    var a, b, c := Name(MissingSizeKey), Name(MissingKey), Name(RequiredSizeKey);
    var inner := a + missingList + c;
    NameShape(MissingSizeKey);
    NameShape(MissingKey);
    NameShape(RequiredSizeKey);
    NamesDiffer(MissingSizeKey, MissingKey);
    GapPlugins(plugins);
    Bridge(a, b, c, missingList);
    assert |inner| > |a| && |inner| > |c|;
    EnclosedUnchanged(inner, a, NatToString(missingSize));
    EnclosedUnchanged(inner, c, NatToString(requiredSize));
    var result := "%" + inner + "%";
    assert result[0] == '%' && NatToString(missingSize)[0] != '%';
  }

  /** The `%plugins%` pass finds nothing in `%missingsize%missing%requiredsize%`. */
  lemma GapPlugins(plugins: string)
    ensures Replace(Placeholder(MissingSizeKey) + Name(MissingKey) + Placeholder(RequiredSizeKey), Placeholder(PluginsKey), plugins)
         == Placeholder(MissingSizeKey) + Name(MissingKey) + Placeholder(RequiredSizeKey)
  {
    var t := Template("", [Slot(MissingSizeKey, Name(MissingKey)), Slot(RequiredSizeKey, "")]);
    assert t.slots[1..] == [Slot(RequiredSizeKey, "")] && t.slots[1..][1..] == [];
    assert Render(t) == Placeholder(MissingSizeKey) + Name(MissingKey) + Placeholder(RequiredSizeKey);
    assert Keys(t.slots) == {MissingSizeKey, RequiredSizeKey};
    assert AvoidsName(t.slots, PluginsKey);
    PassRender(t, PluginsKey, plugins);
    PassAbsent(t, PluginsKey, plugins);
  }

  /**
    The pass for `%b%` reads `%b%` across two placeholders `%a%` and `%c%`
    with the word `b` between them: the closing `%` of the first, the word,
    the opening `%` of the second.
   */
  lemma Bridge(a: string, b: string, c: string, replacement: string)
    requires Plain(a) && Plain(b) && Plain(c) && a != b
    ensures Replace(("%" + a + "%") + b + ("%" + c + "%"), "%" + b + "%", replacement)
         == "%" + (a + replacement + c) + "%"
  {
    var target := "%" + b + "%";
    var word := "%" + a + "%";
    var tail := c + "%";
    var rest := b + "%" + tail;
    AppendAssoc(word, b, "%" + c + "%");
    AppendAssoc("%", c, "%");
    AppendAssoc(b, "%", tail);
    SkipOtherWord(a, b, rest, replacement);
    AppendAssoc("%", b + "%", tail);
    AppendAssoc("%", b, "%");
    ReplaceAtTarget(target, tail, replacement);
    ReplacePlainPrefix(c, "%", target, replacement);
    assert Replace("%", target, replacement) == "%";
    AppendAssoc(replacement, c, "%");
    AppendAssoc("%" + a, replacement + c, "%");
    AppendAssoc("%", a, replacement + c);
    AppendAssoc(a, replacement, c);
  }

  /** `%inner%` holds no match of `%n%` when `inner` is plain and not `n`. */
  lemma EnclosedUnchanged(inner: string, n: string, replacement: string)
    requires Plain(inner) && Plain(n) && inner != n
    ensures Replace("%" + inner + "%", "%" + n + "%", replacement) == "%" + inner + "%"
  {
    var target := "%" + n + "%";
    ThroughTail(inner, "%", n, replacement);
    ReplacePlainPrefix(inner, "%", target, replacement);
    assert Replace("%", target, replacement) == "%";
    AppendAssoc("%", inner, "%");
  }
}
