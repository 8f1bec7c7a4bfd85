/** Resolution of {{name}} references in step parameters. */
module Template {
  import opened Prelude
  import opened Values

  // ---- Finding references: the pattern {{ name }} with a non-empty name free of '}' ----

  /** A complete reference, stated on its own: this is what the pattern describes. */
  predicate IsReference(m: string) {
    && |m| >= 5 && m[..2] == "{{" && m[|m| - 2..] == "}}"
    && forall k :: 2 <= k < |m| - 2 ==> m[k] != '}'
  }

  /** First position at or after i that holds '}' (or the end). */
  function NextBrace(s: string, i: nat): (j: nat)
    requires i <= |s|
    ensures i <= j <= |s|
    ensures forall k :: i <= k < j ==> s[k] != '}'
    ensures j < |s| ==> s[j] == '}'
    decreases |s| - i
  {
    if i < |s| && s[i] != '}' then NextBrace(s, i + 1) else i
  }

  /** The end of the reference starting at i, if there is one. */
  function MatchEnd(s: string, i: nat): (end: Option<nat>)
    requires i <= |s|
    ensures end.Some? ==> i + 5 <= end.value <= |s|
  {
    if i + 2 <= |s| && s[i] == '{' && s[i + 1] == '{' then
      var j := NextBrace(s, i + 2);
      if j > i + 2 && j + 2 <= |s| && s[j + 1] == '}' then Some(j + 2) else None
    else None
  }

  /** The same for a piece of a string, position by position. */
  lemma ReferenceAt(s: string, i: nat, j: nat)
    requires i <= j <= |s|
    ensures IsReference(s[i..j]) <==>
            && i + 5 <= j && s[i] == '{' && s[i + 1] == '{' && s[j - 2] == '}' && s[j - 1] == '}'
            && forall k :: i + 2 <= k < j - 2 ==> s[k] != '}'
  {
    var m := s[i..j];
    if i + 5 <= j {
      assert m[..2] == [s[i], s[i + 1]] && m[|m| - 2..] == [s[j - 2], s[j - 1]];
      assert forall k :: i + 2 <= k < j - 2 ==> s[k] == m[k - i];
      assert forall k :: 2 <= k < |m| - 2 ==> m[k] == s[k + i];
    }
  }

  /** At each position at most one reference starts, and MatchEnd finds it. */
  lemma MatchEndIsTheReference(s: string, i: nat, j: nat)
    requires i <= j <= |s|
    ensures MatchEnd(s, i) == Some(j) <==> IsReference(s[i..j])
  {
    ReferenceAt(s, i, j);
    if IsReference(s[i..j]) {
      assert NextBrace(s, i + 2) == j - 2;
    }
  }

  /** The leftmost reference at or after i, as a pair of positions. */
  function FirstMatch(s: string, i: nat): (r: Option<(nat, nat)>)
    requires i <= |s|
    ensures r.Some? ==> i <= r.value.0 && r.value.0 + 5 <= r.value.1 <= |s| && MatchEnd(s, r.value.0) == Some(r.value.1)
    ensures r.Some? ==> forall k :: i <= k < r.value.0 ==> MatchEnd(s, k) == None
    ensures r.None? ==> forall k :: i <= k <= |s| ==> MatchEnd(s, k) == None
    decreases |s| - i
  {
    if MatchEnd(s, i).Some? then Some((i, MatchEnd(s, i).value))
    else if i == |s| then None
    else FirstMatch(s, i + 1)
  }

  // ---- Cutting a string into literals and references ----

  datatype Segment = Literal(text: string) | Reference(name: string)

  function Text(g: Segment): string {
    match g
    case Literal(text) => text
    case Reference(name) => "{{" + name + "}}"
  }

  function Segments(s: string): seq<Segment>
    decreases |s|
  {
    match FirstMatch(s, 0)
    case None => [Literal(s)]
    case Some(m) =>
      [Literal(s[..m.0]), Reference(s[m.0 + 2..m.1 - 2])] + Segments(s[m.1..])
  }

  function Texts(gs: seq<Segment>): string {
    if gs == [] then "" else Text(gs[0]) + Texts(gs[1..])
  }

  lemma ReferenceText(s: string, i: nat, j: nat)
    requires i <= j <= |s| && IsReference(s[i..j])
    ensures Text(Reference(s[i + 2..j - 2])) == s[i..j]
  {
    var r := s[i..j];
    var name := s[i + 2..j - 2];
    assert |name| == |r| - 4 && forall k :: 0 <= k < |name| ==> name[k] == r[k + 2];
    assert r == r[..2] + name + r[|r| - 2..];
  }

  lemma TextsOfTwo(a: Segment, b: Segment, gs: seq<Segment>)
    ensures Texts([a, b] + gs) == Text(a) + (Text(b) + Texts(gs))
  {
    assert ([a, b] + gs)[1..] == [b] + gs;
    assert ([b] + gs)[1..] == gs;
  }

  lemma SegmentsAtMatch(s: string, i: nat, j: nat, a: string, name: string, b: string)
    requires FirstMatch(s, 0) == Some((i, j)) && s[..i] == a && s[i + 2..j - 2] == name && s[j..] == b
    ensures Segments(s) == [Literal(a), Reference(name)] + Segments(b)
  {
  }

  /** Literals and references put back together give the string again. */
  lemma {:induction false} SegmentsRejoin(s: string)
    ensures Texts(Segments(s)) == s
    decreases |s|
  {
    var found := FirstMatch(s, 0);
    if found.None? {
      TextsOfOne(s);
    } else {
      var (i, j) := found.value;
      var tail := Segments(s[j..]);
      SegmentsAtMatch(s, i, j, s[..i], s[i + 2..j - 2], s[j..]);
      SegmentsRejoin(s[j..]);
      RejoinStep(s, i, j, tail);
    }
  }

  lemma RejoinStep(s: string, i: nat, j: nat, tail: seq<Segment>)
    requires i <= j <= |s| && MatchEnd(s, i) == Some(j) && Texts(tail) == s[j..]
    ensures Texts([Literal(s[..i]), Reference(s[i + 2..j - 2])] + tail) == s
  {
    MatchEndIsTheReference(s, i, j);
    ReferenceText(s, i, j);
    TextsOfTwo(Literal(s[..i]), Reference(s[i + 2..j - 2]), tail);
    CutTwice(s, i, j);
  }

  lemma CutTwice(s: string, i: nat, j: nat)
    requires i <= j <= |s|
    ensures s[..i] + (s[i..j] + s[j..]) == s
  {
  }

  lemma TextsOfOne(s: string)
    ensures Texts([Literal(s)]) == s
  {
    assert [Literal(s)][1..] == [];
    assert s + "" == s;
  }

  // ---- Looking variables up ----

  predicate Brace(c: char) {
    c == '{' || c == '}'
  }

  predicate Space(c: char) {
    c in {' ', '\t', '\n', '\r', '\U{000B}', '\U{000C}', '\U{0085}', '\U{00A0}', '\U{1680}', '\U{2028}', '\U{2029}',
          '\U{202F}', '\U{205F}', '\U{3000}'}
    || '\U{2000}' <= c <= '\U{200A}'
  }

  /** The string without the characters of the cut set at both ends. */
  function Trim(s: string, cut: char -> bool): string
    decreases |s|
  {
    if s != [] && cut(s[0]) then Trim(s[1..], cut)
    else if s != [] && cut(s[|s| - 1]) then Trim(s[..|s| - 1], cut)
    else s
  }

  function Split(path: string): (parts: seq<string>)
    ensures |parts| > 0
    decreases |path|
  {
    if path == "" then [""]
    else if path[0] == '.' then [""] + Split(path[1..])
    else
      var rest := Split(path[1..]);
      [[path[0]] + rest[0]] + rest[1..]
  }

  function Walk(value: Value, parts: seq<string>): Value
    decreases |parts|
  {
    if parts == [] then value
    else if value.Obj? then Walk(Lookup(value.fields, Trim(parts[0], Space)), parts[1..])
    else Nil
  }

  function GetVar(path: string, vars: Vars): Value {
    Walk(Obj(vars), Split(path))
  }

  // ---- Resolution ----

  /** How a value prints inside a longer string is left to the caller. */
  type Render = Value -> string

  function Replaced(g: Segment, vars: Vars, render: Render): string {
    match g
    case Literal(text) => text
    case Reference(_) =>
      var v := GetVar(Trim(Text(g), Brace), vars);
      if v == Nil then Text(g) else render(v)
  }

  function Substitute(gs: seq<Segment>, vars: Vars, render: Render): string {
    if gs == [] then "" else Replaced(gs[0], vars, render) + Substitute(gs[1..], vars, render)
  }

  predicate IsWhole(s: string) {
    FirstMatch(s, 0) == Some((0, |s|))
  }

  function ResolveString(s: string, vars: Vars, render: Render): Value {
    if IsWhole(s) then GetVar(s[2..|s| - 2], vars)
    else Str(Substitute(Segments(s), vars, render))
  }

  function ResolveValue(value: Value, vars: Vars, render: Render): Value
    decreases value
  {
    match value
    case Str(s) => ResolveString(s, vars, render)
    case Obj(fields) => Obj(map k | k in fields :: ResolveValue(fields[k], vars, render))
    case Arr(items) => Arr(seq(|items|, i requires 0 <= i < |items| => ResolveValue(items[i], vars, render)))
    case _ => value
  }

  function ResolveParams(params: Option<Vars>, flowVars: Vars, dev: int, render: Render): Option<Vars> {
    match params
    case None => None
    case Some(ps) =>
      var all := flowVars["deviceId" := Int(dev)];
      Some(map k | k in ps :: ResolveValue(ps[k], all, render))
  }

  // ---- Shape and identity ----

  /** Equal outside the strings: same keys, same lengths, same scalars. */
  ghost predicate SameShape(a: Value, b: Value)
    decreases a
  {
    match a
    case Str(_) => true
    case Obj(fields) =>
      b.Obj? && b.fields.Keys == fields.Keys && forall k :: k in fields ==> SameShape(fields[k], b.fields[k])
    case Arr(items) =>
      b.Arr? && |b.items| == |items| && forall i :: 0 <= i < |items| ==> SameShape(items[i], b.items[i])
    case _ => b == a
  }

  lemma {:induction false} ResolutionKeepsShape(value: Value, vars: Vars, render: Render)
    ensures SameShape(value, ResolveValue(value, vars, render))
    decreases value
  {
    match value
    case Obj(fields) =>
      forall k | k in fields ensures SameShape(fields[k], ResolveValue(fields[k], vars, render)) {
        ResolutionKeepsShape(fields[k], vars, render);
      }
    case Arr(items) =>
      forall i | 0 <= i < |items| ensures SameShape(items[i], ResolveValue(items[i], vars, render)) {
        ResolutionKeepsShape(items[i], vars, render);
      }
    case _ =>
  }

  ghost predicate NoReference(value: Value)
    decreases value
  {
    match value
    case Str(s) => forall i, j :: 0 <= i <= j <= |s| ==> !IsReference(s[i..j])
    case Obj(fields) => forall k :: k in fields ==> NoReference(fields[k])
    case Arr(items) => forall i :: 0 <= i < |items| ==> NoReference(items[i])
    case _ => true
  }

  lemma {:induction false} ResolutionIsIdentityWithoutReferences(value: Value, vars: Vars, render: Render)
    requires NoReference(value)
    ensures ResolveValue(value, vars, render) == value
    decreases value
  {
    match value
    case Str(s) =>
      forall i, j | 0 <= i <= j <= |s| ensures MatchEnd(s, i) != Some(j) {
        MatchEndIsTheReference(s, i, j);
      }
      assert Segments(s) == [Literal(s)];
      SubstituteUndefined([Literal(s)], vars, render);
      TextsOfOne(s);
    case Obj(fields) =>
      forall k | k in fields ensures ResolveValue(fields[k], vars, render) == fields[k] {
        ResolutionIsIdentityWithoutReferences(fields[k], vars, render);
      }
    case Arr(items) =>
      forall i | 0 <= i < |items| ensures ResolveValue(items[i], vars, render) == items[i] {
        ResolutionIsIdentityWithoutReferences(items[i], vars, render);
      }
    case _ =>
  }

  // ---- Whole-string references ----

  lemma IsReferenceTo(name: string)
    requires name != "" && '}' !in name
    ensures IsReference("{{" + name + "}}")
  {
    var r := "{{" + name + "}}";
    assert r[..2] == "{{" && r[|r| - 2..] == "}}";
    assert forall k :: 2 <= k < |r| - 2 ==> r[k] == name[k - 2];
  }

  /** A string that is one reference resolves to the variable's value, type included,
      and to nil when the variable is not defined. */
  lemma WholeReferenceKeepsItsType(name: string, vars: Vars, render: Render)
    requires name != "" && '}' !in name
    ensures ResolveString("{{" + name + "}}", vars, render) == GetVar(name, vars)
  {
    var s := "{{" + name + "}}";
    IsReferenceTo(name);
    assert s[0..|s|] == s;
    MatchEndIsTheReference(s, 0, |s|);
    assert s[2..|s| - 2] == name;
  }

  lemma {:induction false} SplitPlain(name: string)
    requires '.' !in name
    ensures Split(name) == [name]
  {
    if name != "" {
      SplitPlain(name[1..]);
      assert [name[0]] + name[1..] == name;
    }
  }

  /** A plain name (no dot, no surrounding space) is looked up as it is. */
  lemma PlainNameIsLookedUp(name: string, vars: Vars)
    requires '.' !in name && Trim(name, Space) == name
    ensures GetVar(name, vars) == Lookup(vars, name)
  {
    SplitPlain(name);
    assert [name][1..] == [];
    assert GetVar(name, vars) == Walk(Lookup(Obj(vars).fields, name), []);
  }

  lemma {:induction false} SplitAtDot(first: string, rest: string)
    requires '.' !in first
    ensures Split(first + "." + rest) == [first] + Split(rest)
  {
    var path := first + "." + rest;
    if first == "" {
      assert path[1..] == rest;
    } else {
      SplitAtDot(first[1..], rest);
      assert path[1..] == first[1..] + "." + rest;
      assert [path[0]] + first[1..] == first;
      assert ([first[1..]] + Split(rest))[1..] == Split(rest);
    }
  }

  /** A dotted path goes into the object its first part names; where that is no object, there is
      nothing. */
  lemma DottedPathDescends(first: string, rest: string, vars: Vars)
    requires '.' !in first
    ensures GetVar(first + "." + rest, vars) ==
            match Lookup(vars, Trim(first, Space))
            case Obj(fields) => GetVar(rest, fields)
            case _ => Nil
  {
    SplitAtDot(first, rest);
    var parts := [first] + Split(rest);
    assert parts[1..] == Split(rest);
    assert Walk(Obj(vars), parts) == Walk(Lookup(vars, Trim(first, Space)), Split(rest));
  }

  predicate AllSpace(s: string) {
    forall k :: 0 <= k < |s| ==> Space(s[k])
  }

  lemma {:induction false} TrimSpacesBefore(before: string, s: string)
    requires AllSpace(before)
    ensures Trim(before + s, Space) == Trim(s, Space)
  {
    if before == "" {
      assert before + s == s;
    } else {
      assert (before + s)[1..] == before[1..] + s;
      TrimSpacesBefore(before[1..], s);
    }
  }

  lemma {:induction false} TrimSpacesAfter(name: string, after: string)
    requires AllSpace(after)
    requires name != "" && !Space(name[0]) && !Space(name[|name| - 1])
    ensures Trim(name + after, Space) == name
    decreases |after|
  {
    var s := name + after;
    if after == "" {
      assert s == name;
    } else {
      assert s[..|s| - 1] == name + after[..|after| - 1];
      TrimSpacesAfter(name, after[..|after| - 1]);
    }
  }

  /** Spaces around a name do not matter. */
  lemma {:induction false} OuterSpacesAreIgnored(before: string, name: string, after: string, vars: Vars)
    requires AllSpace(before) && AllSpace(after) && '.' !in name
    requires name != "" && !Space(name[0]) && !Space(name[|name| - 1])
    ensures GetVar(before + name + after, vars) == Lookup(vars, name)
  {
    var s := before + name + after;
    Associative(before, name, after);
    TrimSpacesBefore(before, name + after);
    TrimSpacesAfter(name, after);
    forall k | 0 <= k < |s| ensures s[k] != '.' {
      if k < |before| {
        assert Space(before[k]);
      } else if k < |before| + |name| {
        assert s[k] == name[k - |before|];
      } else {
        assert Space(after[k - |before| - |name|]);
      }
    }
    SplitPlain(s);
    assert [s][1..] == [];
    assert GetVar(s, vars) == Walk(Lookup(Obj(vars).fields, name), []);
  }

  // ---- Mixed strings ----

  ghost predicate AllUndefined(s: string, vars: Vars) {
    forall g :: g in Segments(s) && g.Reference? ==> GetVar(Trim(Text(g), Brace), vars) == Nil
  }

  lemma {:induction false} SubstituteUndefined(gs: seq<Segment>, vars: Vars, render: Render)
    requires forall g :: g in gs && g.Reference? ==> GetVar(Trim(Text(g), Brace), vars) == Nil
    ensures Substitute(gs, vars, render) == Texts(gs)
  {
    if gs != [] {
      SubstituteUndefined(gs[1..], vars, render);
    }
  }

  /** A mixed string none of whose references is defined stays as it was. */
  lemma UndefinedReferencesStay(s: string, vars: Vars, render: Render)
    requires !IsWhole(s) && AllUndefined(s, vars)
    ensures ResolveString(s, vars, render) == Str(s)
  {
    SubstituteUndefined(Segments(s), vars, render);
    SegmentsRejoin(s);
  }

  lemma {:induction false} TrimNothing(s: string, cut: char -> bool)
    requires s == "" || (!cut(s[0]) && !cut(s[|s| - 1]))
    ensures Trim(s, cut) == s
  {
  }

  lemma {:induction false} TrimShorter(s: string, cut: char -> bool)
    ensures |Trim(s, cut)| <= |s|
    decreases |s|
  {
    if s != [] && cut(s[0]) {
      TrimShorter(s[1..], cut);
    } else if s != [] && cut(s[|s| - 1]) {
      TrimShorter(s[..|s| - 1], cut);
    }
  }

  /** Inside a longer string all braces around the name are cut off, so the name
      looked up is the captured one exactly when that has no brace at its ends. */
  lemma MixedNameIsCapturedName(name: string)
    requires name != "" && '}' !in name
    ensures Trim(Text(Reference(name)), Brace) == name <==> name[0] != '{' && name[|name| - 1] != '{'
  {
    var m := Text(Reference(name));
    TrimFences(name);
    if name[0] == '{' {
      TrimShorter(name[1..], Brace);
    } else if name[|name| - 1] == '{' {
      TrimShorter(name[..|name| - 1], Brace);
    } else {
      TrimNothing(name, Brace);
    }
  }

  lemma TrimFences(name: string)
    ensures Trim("{{" + name + "}}", Brace) == Trim(name, Brace)
  {
    var m := "{{" + name + "}}";
    assert m[1..] == "{" + name + "}}" && m[1..][1..] == name + "}}";
    TrimTail(name);
  }

  lemma {:induction false} TrimTail(name: string)
    ensures Trim(name + "}}", Brace) == Trim(name, Brace)
    decreases |name|
  {
    var m := name + "}}";
    if name == "" {
      assert m[1..] == "}" && m[1..][1..] == "";
    } else if Brace(name[0]) {
      assert m[1..] == name[1..] + "}}";
      TrimTail(name[1..]);
    } else {
      assert m[..|m| - 1] == name + "}" && (name + "}")[..|name|] == name;
      assert Trim(name + "}", Brace) == Trim(name, Brace);
    }
  }

  // ---- References inside longer strings ----

  /** Two opening braces at k, the second perhaps the first character behind the string. */
  predicate Opens(a: string, k: nat)
    requires k < |a|
  {
    a[k] == '{' && (k + 1 == |a| || a[k + 1] == '{')
  }

  /** No reference that starts in the string can reach beyond its end. */
  ghost predicate Shut(a: string) {
    forall k :: 0 <= k < |a| && Opens(a, k) ==> '}' in a[k..]
  }

  /** A reference written behind some text is the first one found exactly when the text holds
      no reference and is shut. */
  lemma FirstReference(a: string, name: string, b: string)
    requires name != "" && '}' !in name
    ensures FirstMatch(a + ("{{" + name + "}}" + b), 0) == Some((|a|, |a| + |name| + 4))
            <==> NoReference(Str(a)) && Shut(a)
  {
    var s := a + ("{{" + name + "}}" + b);
    ReferenceIsFound(a, name, b);
    if NoReference(Str(a)) && Shut(a) {
      assert s[..|a|] == a && s[|a|] == '{';
      forall k | 0 <= k < |a| ensures MatchEnd(s, k) == None {
        NothingEarlier(s, |a|, k);
      }
    } else {
      SomethingEarlier(a, name, b);
    }
  }

  lemma ReferenceIsFound(a: string, name: string, b: string)
    requires name != "" && '}' !in name
    ensures MatchEnd(a + ("{{" + name + "}}" + b), |a|) == Some(|a| + |name| + 4)
  {
    var s := a + ("{{" + name + "}}" + b);
    var r := "{{" + name + "}}";
    IsReferenceTo(name);
    assert s[|a|..|a| + |r|] == r;
    MatchEndIsTheReference(s, |a|, |a| + |r|);
  }

  lemma NothingEarlier(s: string, n: nat, k: nat)
    requires k < n < |s| && s[n] == '{' && NoReference(Str(s[..n])) && Shut(s[..n])
    ensures MatchEnd(s, k) == None
  {
    EndsInside(s, n, k);
    forall j | k <= j <= n ensures MatchEnd(s, k) != Some(j) {
      NoneInside(s, n, k, j);
    }
  }

  lemma NoneInside(s: string, n: nat, k: nat, j: nat)
    requires k <= j <= n <= |s| && NoReference(Str(s[..n]))
    ensures MatchEnd(s, k) != Some(j)
  {
    var a := s[..n];
    assert a[k..j] == s[k..j];
    assert !IsReference(a[k..j]);
    MatchEndIsTheReference(s, k, j);
  }

  /** A match that starts in a shut prefix with '{' behind it ends inside the prefix. */
  lemma EndsInside(s: string, n: nat, k: nat)
    requires k < n < |s| && Shut(s[..n]) && s[n] == '{'
    ensures MatchEnd(s, k).Some? ==> MatchEnd(s, k).value <= n
  {
    var a := s[..n];
    if s[k] == '{' && s[k + 1] == '{' {
      assert Opens(a, k);
      var m :| 0 <= m < |a[k..]| && a[k..][m] == '}';
      assert s[k + m] == '}';
    }
  }

  lemma SomethingEarlier(a: string, name: string, b: string)
    requires name != "" && '}' !in name && !(NoReference(Str(a)) && Shut(a))
    ensures exists k :: 0 <= k < |a| && MatchEnd(a + ("{{" + name + "}}" + b), k).Some?
  {
    var s := a + ("{{" + name + "}}" + b);
    if !NoReference(Str(a)) {
      var i, j :| 0 <= i <= j <= |a| && IsReference(a[i..j]);
      assert s[i..j] == a[i..j];
      MatchEndIsTheReference(s, i, j);
    } else {
      var k :| 0 <= k < |a| && Opens(a, k) && '}' !in a[k..];
      var close := |a| + 2 + |name|;
      forall m | k + 2 <= m < close ensures s[m] != '}' {
        if m < |a| {
          assert s[m] == a[k..][m - k];
        } else if m >= |a| + 2 {
          assert s[m] == name[m - |a| - 2];
        }
      }
      assert s[close] == '}' && s[close + 1] == '}';
      assert NextBrace(s, k + 2) == close;
      assert MatchEnd(s, k).Some?;
    }
  }

  /** Some text and the name of the reference behind it. */
  datatype Piece = Piece(before: string, name: string)

  function Joined(ps: seq<Piece>, tail: string): string {
    if ps == [] then tail else ps[0].before + ("{{" + ps[0].name + "}}" + Joined(ps[1..], tail))
  }

  /** The same text with the values in place of the references that have one. */
  function Filled(ps: seq<Piece>, tail: string, vars: Vars, render: Render): string {
    if ps == [] then tail
    else
      var v := GetVar(ps[0].name, vars);
      ps[0].before + (if v == Nil then "{{" + ps[0].name + "}}" else render(v)) + Filled(ps[1..], tail, vars, render)
  }

  /** A name that is looked up as it stands. */
  predicate Clean(name: string) {
    name != "" && '}' !in name && name[0] != '{' && name[|name| - 1] != '{'
  }

  ghost predicate WellCut(ps: seq<Piece>, tail: string) {
    && (forall p :: p in ps ==> Clean(p.name) && NoReference(Str(p.before)) && Shut(p.before))
    && NoReference(Str(tail))
  }

  lemma SegmentsOfPiece(a: string, name: string, b: string)
    requires name != "" && '}' !in name && NoReference(Str(a)) && Shut(a)
    ensures Segments(a + ("{{" + name + "}}" + b)) == [Literal(a), Reference(name)] + Segments(b)
  {
    FirstReference(a, name, b);
    CutPiece(a, name, b);
    SegmentsAtMatch(a + ("{{" + name + "}}" + b), |a|, |a| + |name| + 4, a, name, b);
  }

  lemma CutPiece(a: string, name: string, b: string)
    ensures var s, n := a + ("{{" + name + "}}" + b), |a| + |name|;
            s[..|a|] == a && s[|a| + 2..n + 4 - 2] == name && s[n + 4..] == b
  {
  }

  lemma SubstituteTwo(a: string, name: string, gs: seq<Segment>, vars: Vars, render: Render)
    requires Clean(name)
    ensures Substitute([Literal(a), Reference(name)] + gs, vars, render)
         == a + (var v := GetVar(name, vars); if v == Nil then "{{" + name + "}}" else render(v))
            + Substitute(gs, vars, render)
  {
    MixedNameIsCapturedName(name);
    var all := [Literal(a), Reference(name)] + gs;
    assert all[1..] == [Reference(name)] + gs && all[1..][1..] == gs;
    Associative(a, Replaced(Reference(name), vars, render), Substitute(gs, vars, render));
  }

  lemma NoFirstMatch(s: string)
    requires NoReference(Str(s))
    ensures FirstMatch(s, 0) == None && Segments(s) == [Literal(s)]
  {
    forall i, j | 0 <= i <= j <= |s| ensures MatchEnd(s, i) != Some(j) {
      MatchEndIsTheReference(s, i, j);
    }
  }

  lemma {:induction false} PiecesAreFilled(ps: seq<Piece>, tail: string, vars: Vars, render: Render)
    requires WellCut(ps, tail)
    ensures Substitute(Segments(Joined(ps, tail)), vars, render) == Filled(ps, tail, vars, render)
  {
    if ps == [] {
      NoFirstMatch(tail);
      SubstituteUndefined([Literal(tail)], vars, render);
      TextsOfOne(tail);
    } else {
      var p, rest := ps[0], Joined(ps[1..], tail);
      PiecesAreFilled(ps[1..], tail, vars, render);
      SegmentsOfPiece(p.before, p.name, rest);
      SubstituteTwo(p.before, p.name, Segments(rest), vars, render);
    }
  }

  /** In a longer string every reference is replaced by the printed value of its variable, where
      it has one, and nothing else changes: any number of references between texts that hold
      none and are shut, which FirstReference shows is needed. */
  lemma {:induction false} EveryReferenceIsReplaced(ps: seq<Piece>, tail: string, vars: Vars, render: Render)
    requires WellCut(ps, tail)
    requires !(|ps| == 1 && ps[0].before == "" && tail == "")
    ensures ResolveString(Joined(ps, tail), vars, render) == Str(Filled(ps, tail, vars, render))
  {
    PiecesAreFilled(ps, tail, vars, render);
    if ps == [] {
      NoFirstMatch(tail);
    } else {
      FirstReference(ps[0].before, ps[0].name, Joined(ps[1..], tail));
    }
  }

  // ---- Every depth ----

  datatype Place = Key(key: string) | Index(i: nat)

  /** What stands at a place inside a value, if anything does. */
  function ValueAt(value: Value, path: seq<Place>): Option<Value>
    decreases |path|
  {
    if path == [] then Some(value)
    else match path[0]
      case Key(k) => if value.Obj? && k in value.fields then ValueAt(value.fields[k], path[1..]) else None
      case Index(i) => if value.Arr? && i < |value.items| then ValueAt(value.items[i], path[1..]) else None
  }

  /** However deep a string lies in a parameter, it is resolved there. */
  lemma {:induction false} ResolvedAtEveryDepth(value: Value, path: seq<Place>, s: string, vars: Vars, render: Render)
    requires ValueAt(value, path) == Some(Str(s))
    ensures ValueAt(ResolveValue(value, vars, render), path) == Some(ResolveString(s, vars, render))
    decreases |path|
  {
    if path != [] {
      match path[0]
      case Key(k) => ResolvedAtEveryDepth(value.fields[k], path[1..], s, vars, render);
      case Index(i) => ResolvedAtEveryDepth(value.items[i], path[1..], s, vars, render);
    }
  }

  // ---- Dependence on variables ----

  /** The first path component a reference looks up. */
  function Root(path: string): string {
    Trim(Split(path)[0], Space)
  }

  ghost predicate Mentions(value: Value, root: string)
    decreases value
  {
    match value
    case Str(s) =>
      if IsWhole(s) then root == Root(s[2..|s| - 2])
      else exists g :: g in Segments(s) && g.Reference? && root == Root(Trim(Text(g), Brace))
    case Obj(fields) => exists k :: k in fields && Mentions(fields[k], root)
    case Arr(items) => exists i :: 0 <= i < |items| && Mentions(items[i], root)
    case _ => false
  }

  lemma GetVarDependsOnRoot(path: string, vars: Vars, vars': Vars)
    requires Lookup(vars, Root(path)) == Lookup(vars', Root(path))
    ensures GetVar(path, vars) == GetVar(path, vars')
  {
    assert Obj(vars).fields == vars && Obj(vars').fields == vars';
  }

  lemma {:induction false} SubstituteDepends(gs: seq<Segment>, vars: Vars, vars': Vars, render: Render)
    requires forall g :: g in gs && g.Reference? ==>
               Lookup(vars, Root(Trim(Text(g), Brace))) == Lookup(vars', Root(Trim(Text(g), Brace)))
    ensures Substitute(gs, vars, render) == Substitute(gs, vars', render)
  {
    if gs != [] {
      SubstituteDepends(gs[1..], vars, vars', render);
      if gs[0].Reference? {
        GetVarDependsOnRoot(Trim(Text(gs[0]), Brace), vars, vars');
      }
    }
  }

  lemma StringDepends(s: string, vars: Vars, vars': Vars, render: Render)
    requires forall root :: Mentions(Str(s), root) ==> Lookup(vars, root) == Lookup(vars', root)
    ensures ResolveString(s, vars, render) == ResolveString(s, vars', render)
  {
    if IsWhole(s) {
      assert Mentions(Str(s), Root(s[2..|s| - 2]));
      GetVarDependsOnRoot(s[2..|s| - 2], vars, vars');
    } else {
      forall g | g in Segments(s) && g.Reference?
        ensures Lookup(vars, Root(Trim(Text(g), Brace))) == Lookup(vars', Root(Trim(Text(g), Brace)))
      {
        assert Mentions(Str(s), Root(Trim(Text(g), Brace)));
      }
      SubstituteDepends(Segments(s), vars, vars', render);
    }
  }

  /** The result depends only on the variables the value mentions. */
  lemma {:induction false} ResolutionDependsOnMentionedVariables(value: Value, vars: Vars, vars': Vars, render: Render)
    requires forall root :: Mentions(value, root) ==> Lookup(vars, root) == Lookup(vars', root)
    ensures ResolveValue(value, vars, render) == ResolveValue(value, vars', render)
    decreases value
  {
    match value
    case Str(s) => StringDepends(s, vars, vars', render);
    case Obj(fields) =>
      forall k | k in fields ensures ResolveValue(fields[k], vars, render) == ResolveValue(fields[k], vars', render) {
        forall root | Mentions(fields[k], root) ensures Lookup(vars, root) == Lookup(vars', root) {
          assert Mentions(value, root);
        }
        ResolutionDependsOnMentionedVariables(fields[k], vars, vars', render);
      }
    case Arr(items) =>
      forall i | 0 <= i < |items|
        ensures ResolveValue(items[i], vars, render) == ResolveValue(items[i], vars', render)
      {
        forall root | Mentions(items[i], root) ensures Lookup(vars, root) == Lookup(vars', root) {
          assert Mentions(value, root);
        }
        ResolutionDependsOnMentionedVariables(items[i], vars, vars', render);
      }
    case _ =>
  }
}
