/**
 `{name}` substitution in a pipeline definition: one scan over every string of a JSON-like
 tree, with the names that are not bound collected on the way.
 */
module Template {
  import opened Wrappers

  type Vars = map<string, string>

  predicate IsNameChar(c: char) {
    'a' <= c <= 'z' || 'A' <= c <= 'Z' || '0' <= c <= '9' || c == '_'
  }

  /** The word characters by code: digits, upper case, underscore, lower case. */
  lemma NameCharCodes(c: char)
    ensures var u := c as int;
            IsNameChar(c) <==> 48 <= u < 58 || 65 <= u < 91 || u == 95 || 97 <= u < 123
  {
  }

  /** The length of the run of name characters at the front. */
  function NameLength(s: string): (n: nat)
    ensures n <= |s|
  {
    if s == "" || !IsNameChar(s[0]) then 0 else 1 + NameLength(s[1..])
  }

  lemma {:induction false} NameLengthMeans(s: string)
    ensures forall i | 0 <= i < NameLength(s) :: IsNameChar(s[i])
    ensures NameLength(s) < |s| ==> !IsNameChar(s[NameLength(s)])
  {
    if s != "" && IsNameChar(s[0]) {
      NameLengthMeans(s[1..]);
      forall i | 0 <= i < NameLength(s)
        ensures IsNameChar(s[i])
      {
        assert i > 0 ==> s[i] == s[1..][i - 1];
      }
    }
  }

  /** The name of a template at the very front, if there is one. */
  function FrontTemplate(s: string): (r: Option<string>)
    ensures r.Some? ==> |r.value| + 2 <= |s|
  {
    if s == "" || s[0] != '{' then None
    else
      var n := NameLength(s[1..]);
      if n > 0 && n + 1 < |s| && s[n + 1] == '}' then Some(s[1..n + 1]) else None
  }

  function Value(name: string, vars: Vars): string {
    if name in vars then vars[name] else "{" + name + "}"
  }

  /** How far the scan moves in one step. */
  function Stride(s: string): (k: nat)
    requires s != ""
    ensures 0 < k <= |s|
  {
    if FrontTemplate(s).Some? then |FrontTemplate(s).value| + 2 else 1
  }

  function Emitted(s: string, vars: Vars): string
    requires s != ""
  {
    if FrontTemplate(s).Some? then Value(FrontTemplate(s).value, vars) else s[..1]
  }

  /** substituteString: what it returns as text and as missing names. */
  function Substitute(s: string, vars: Vars): string
    decreases |s|
  {
    if s == "" then "" else Emitted(s, vars) + Substitute(s[Stride(s)..], vars)
  }

  function Missing(s: string, vars: Vars): set<string>
    decreases |s|
  {
    if s == "" then {}
    else
      var t := FrontTemplate(s);
      if t.Some? then (if t.value in vars then {} else {t.value}) + Missing(s[|t.value| + 2..], vars)
      else Missing(s[1..], vars)
  }

  // ---------------------------------------------------------------- what it means

  predicate IsName(name: string) {
    name != "" && forall i | 0 <= i < |name| :: IsNameChar(name[i])
  }

  /** A template with this name stands at position `i`, wherever the scan may be. */
  predicate OccursAt(s: string, i: nat, name: string) {
    && IsName(name)
    && i + |name| + 2 <= |s|
    && s[i] == '{' && s[i + 1..i + 1 + |name|] == name && s[i + 1 + |name|] == '}'
  }

  ghost predicate Occurs(s: string, name: string) {
    exists i: nat :: OccursAt(s, i, name)
  }

  lemma {:induction false} NameLengthOf(name: string, rest: string)
    requires (forall i | 0 <= i < |name| :: IsNameChar(name[i])) && rest != "" && !IsNameChar(rest[0])
    ensures NameLength(name + rest) == |name|
  {
    if name == "" {
      assert name + rest == rest;
    } else {
      assert (name + rest)[1..] == name[1..] + rest;
      NameLengthOf(name[1..], rest);
    }
  }

  lemma FrontTemplateOccurs(s: string, name: string)
    ensures FrontTemplate(s) == Some(name) <==> OccursAt(s, 0, name)
  {
    if s != "" {
      NameLengthMeans(s[1..]);
    }
    if OccursAt(s, 0, name) {
      NameLengthOf(name, s[|name| + 1..]);
      assert s[1..] == name + s[|name| + 1..];
    }
  }

  lemma OccursLater(s: string, k: nat, i: nat, name: string)
    requires k <= |s|
    ensures OccursAt(s[k..], i, name) <==> OccursAt(s, k + i, name)
  {
    if OccursAt(s[k..], i, name) {
      assert s[k + i + 1..k + i + 1 + |name|] == s[k..][i + 1..i + 1 + |name|];
    }
    if OccursAt(s, k + i, name) {
      assert s[k + i + 1..k + i + 1 + |name|] == s[k..][i + 1..i + 1 + |name|];
    }
  }

  lemma NoBraceInside(s: string, i: nat, name: string, j: nat)
    requires OccursAt(s, i, name) && i < j < i + |name| + 2
    ensures s[j] != '{'
    ensures j <= i + |name| ==> IsNameChar(s[j])
  {
    if j <= i + |name| {
      assert s[j] == s[i + 1..i + 1 + |name|][j - i - 1];
    }
  }

  /** Templates do not overlap: none starts inside another. */
  lemma NoOverlap(s: string, i: nat, name: string, j: nat, other: string)
    requires OccursAt(s, i, name) && OccursAt(s, j, other) && i <= j < i + |name| + 2
    ensures i == j && name == other
  {
    if i < j {
      NoBraceInside(s, i, name, j);
    } else {
      FrontTemplateOccurs(s[i..], name);
      FrontTemplateOccurs(s[i..], other);
      OccursLater(s, i, 0, name);
      OccursLater(s, i, 0, other);
    }
  }

  /** The missing names are exactly those of templates anywhere in the string that are not bound. */
  lemma {:induction false} MissingExact(s: string, vars: Vars, name: string)
    ensures name in Missing(s, vars) <==> Occurs(s, name) && name !in vars
    decreases |s|
  {
    if s != "" {
      var t := FrontTemplate(s);
      var k := if t.Some? then |t.value| + 2 else 1;
      MissingExact(s[k..], vars, name);
      if t.Some? {
        FrontTemplateOccurs(s, t.value);
      }
      if Occurs(s[k..], name) {
        var i: nat :| OccursAt(s[k..], i, name);
        OccursLater(s, k, i, name);
      }
      if Occurs(s, name) {
        var i: nat :| OccursAt(s, i, name);
        if i < k {
          if t.Some? {
            NoOverlap(s, 0, t.value, i, name);
          } else {
            FrontTemplateOccurs(s, name);
          }
        } else {
          OccursLater(s, k, i - k, name);
        }
      }
    }
  }

  lemma FrontOfPrefix(s: string, i: nat, name: string)
    requires 0 < i && OccursAt(s, i, name)
    ensures FrontTemplate(s[..i]) == FrontTemplate(s)
    ensures FrontTemplate(s).Some? ==> |FrontTemplate(s).value| + 2 <= i
  {
    var whole, cut := FrontTemplate(s), FrontTemplate(s[..i]);
    if whole.Some? {
      FrontTemplateOccurs(s, whole.value);
      if i < |whole.value| + 2 {
        NoOverlap(s, 0, whole.value, i, name);
      }
      assert s[..i][1..1 + |whole.value|] == s[1..1 + |whole.value|];
      FrontTemplateOccurs(s[..i], whole.value);
    }
    if cut.Some? {
      FrontTemplateOccurs(s[..i], cut.value);
      assert s[..i][1..1 + |cut.value|] == s[1..1 + |cut.value|];
      FrontTemplateOccurs(s, cut.value);
    }
  }

  lemma ScanStep(s: string, vars: Vars)
    requires s != ""
    ensures Substitute(s, vars) == Emitted(s, vars) + Substitute(s[Stride(s)..], vars)
  {
  }

  /** Before a template the scan moves alike in the whole text and in the text cut off there. */
  lemma SameStep(s: string, vars: Vars, i: nat, name: string)
    requires 0 < i && OccursAt(s, i, name)
    ensures Stride(s[..i]) == Stride(s) <= i
    ensures Emitted(s[..i], vars) == Emitted(s, vars)
    ensures s[Stride(s)..][..i - Stride(s)] == s[..i][Stride(s)..]
    ensures OccursAt(s[Stride(s)..], i - Stride(s), name)
    ensures s[Stride(s)..][i - Stride(s) + |name| + 2..] == s[i + |name| + 2..]
  {
    FrontOfPrefix(s, i, name);
    OccursLater(s, Stride(s), i - Stride(s), name);
    assert s[..i][..1] == s[..1];
  }

  /**
   The text before and behind a template is substituted on its own, and the value in between
   is inserted as it is.
   */
  predicate Verbatim(s: string, vars: Vars, i: nat, name: string)
    requires i + |name| + 2 <= |s|
  {
    Substitute(s, vars) == Substitute(s[..i], vars) + (Value(name, vars) + Substitute(s[i + |name| + 2..], vars))
  }

  /** Substitution works template by template, so an inserted value is never scanned again. */
  lemma {:induction false} ValuesAreVerbatim(s: string, vars: Vars, i: nat, name: string)
    requires OccursAt(s, i, name)
    ensures Verbatim(s, vars, i, name)
    decreases |s|
  {
    if i == 0 {
      FrontVerbatim(s, vars, name);
    } else {
      SameStep(s, vars, i, name);
      ValuesAreVerbatim(s[Stride(s)..], vars, i - Stride(s), name);
      VerbatimStep(s, vars, i, name);
    }
  }

  lemma FrontVerbatim(s: string, vars: Vars, name: string)
    requires OccursAt(s, 0, name)
    ensures Verbatim(s, vars, 0, name)
  {
    FrontTemplateOccurs(s, name);
    ScanStep(s, vars);
    var rest := Value(name, vars) + Substitute(s[|name| + 2..], vars);
    assert s[..0] == "" && Substitute("", vars) == "" && "" + rest == rest;
  }

  lemma VerbatimStep(s: string, vars: Vars, i: nat, name: string)
    requires 0 < i && OccursAt(s, i, name) && Stride(s) <= i && Verbatim(s[Stride(s)..], vars, i - Stride(s), name)
    ensures Verbatim(s, vars, i, name)
  {
    SameStep(s, vars, i, name);
    ScanStep(s, vars);
    ScanStep(s[..i], vars);
    Associate(Emitted(s, vars), Substitute(s[..i][Stride(s)..], vars),
              Value(name, vars) + Substitute(s[i + |name| + 2..], vars));
  }

  /** Text without any template is left alone. */
  lemma {:induction false} NoTemplateNoChange(s: string, vars: Vars)
    requires forall name :: !Occurs(s, name)
    ensures Substitute(s, vars) == s
    decreases |s|
  {
    if s != "" {
      var t := FrontTemplate(s);
      if t.Some? {
        FrontTemplateOccurs(s, t.value);
        assert Occurs(s, t.value);
      }
      forall name
        ensures !Occurs(s[1..], name)
      {
        if Occurs(s[1..], name) {
          var i: nat :| OccursAt(s[1..], i, name);
          OccursLater(s, 1, i, name);
          assert Occurs(s, name);
        }
      }
      assert t.None?;
      NoTemplateNoChange(s[1..], vars);
      assert s == s[..1] + s[1..];
    }
  }

  // ---------------------------------------------------------------- a second pass

  ghost predicate BraceFree(vars: Vars) {
    forall name | name in vars :: '{' !in vars[name] && '}' !in vars[name]
  }

  /** Text the substitution turns into name characters: such characters themselves, and templates with such values. */
  predicate Runs(t: string, vars: Vars) {
    && t != ""
    && if FrontTemplate(t).Some? then FrontTemplate(t).value in vars && AllNameChars(vars[FrontTemplate(t).value])
       else IsNameChar(t[0])
  }

  predicate AllNameChars(s: string) {
    forall i | 0 <= i < |s| :: IsNameChar(s[i])
  }

  /** How long the run at the front of the text is. */
  function RunLength(t: string, vars: Vars): (n: nat)
    ensures n <= |t|
    decreases |t|
  {
    if Runs(t, vars) then Stride(t) + RunLength(t[Stride(t)..], vars) else 0
  }

  /** And what it becomes. */
  function RunText(t: string, vars: Vars): string
    decreases |t|
  {
    if Runs(t, vars) then Emitted(t, vars) + RunText(t[Stride(t)..], vars) else ""
  }

  lemma Associate(a: string, b: string, c: string)
    ensures a + (b + c) == (a + b) + c
  {
  }

  lemma {:induction false} RunIsPlain(t: string, vars: Vars)
    ensures AllNameChars(RunText(t, vars))
    decreases |t|
  {
    if Runs(t, vars) {
      RunIsPlain(t[Stride(t)..], vars);
    }
  }

  /** The run at the front of the text ends before a closing brace. */
  predicate Closes(t: string, vars: Vars) {
    RunLength(t, vars) < |t| && t[RunLength(t, vars)] == '}'
  }

  /** A brace that opens no template, then a run that becomes this name, then a closing brace. */
  predicate FormsFront(s: string, vars: Vars, name: string) {
    && s != "" && s[0] == '{' && FrontTemplate(s).None?
    && Closes(s[1..], vars) && name != "" && RunText(s[1..], vars) == name
  }

  /** Somewhere on its way the scan meets such a brace: a template put together by the substitution. */
  predicate FormsName(s: string, vars: Vars, name: string)
    decreases |s|
  {
    s != "" && (FormsFront(s, vars, name) || FormsName(s[Stride(s)..], vars, name))
  }

  lemma ClosesLater(t: string, vars: Vars)
    requires Runs(t, vars)
    ensures Closes(t, vars) <==> Closes(t[Stride(t)..], vars)
  {
    var rest := t[Stride(t)..];
    assert RunLength(rest, vars) < |rest| ==> rest[RunLength(rest, vars)] == t[Stride(t) + RunLength(rest, vars)];
  }

  /** A closed run comes out as its text and the brace. */
  lemma {:induction false} ClosedRun(t: string, vars: Vars) returns (tail: string)
    requires Closes(t, vars)
    ensures Substitute(t, vars) == RunText(t, vars) + ("}" + tail)
    decreases |t|
  {
    if Runs(t, vars) {
      ClosesLater(t, vars);
      tail := ClosedRun(t[Stride(t)..], vars);
      Associate(Emitted(t, vars), RunText(t[Stride(t)..], vars), "}" + tail);
    } else {
      assert t[..1] == "}";
      tail := Substitute(t[1..], vars);
    }
  }

  lemma OccursInConcat(e: string, x: string, name: string)
    requires Occurs(x, name)
    ensures Occurs(e + x, name)
  {
    var p: nat :| OccursAt(x, p, name);
    assert (e + x)[|e|..] == x;
    OccursLater(e + x, |e|, p, name);
  }

  lemma FrontFormedOccurs(s: string, vars: Vars, name: string)
    requires FormsFront(s, vars, name)
    ensures Occurs(Substitute(s, vars), name)
  {
    var tail := ClosedRun(s[1..], vars);
    RunIsPlain(s[1..], vars);
    OccursBetween("", name, tail);
    assert s[..1] == "{";
    assert "" + ("{" + (name + ("}" + tail))) == "{" + (name + ("}" + tail));
  }

  lemma OccursAfterStep(s: string, vars: Vars, name: string)
    requires s != "" && Occurs(Substitute(s[Stride(s)..], vars), name)
    ensures Occurs(Substitute(s, vars), name)
  {
    OccursInConcat(Emitted(s, vars), Substitute(s[Stride(s)..], vars), name);
  }

  lemma {:induction false} FormedOccurs(s: string, vars: Vars, name: string)
    requires FormsName(s, vars, name)
    ensures Occurs(Substitute(s, vars), name)
    decreases |s|
  {
    if FormsFront(s, vars, name) {
      FrontFormedOccurs(s, vars, name);
    } else {
      FormedOccurs(s[Stride(s)..], vars, name);
      OccursAfterStep(s, vars, name);
    }
  }

  lemma OccursBetween(a: string, name: string, b: string)
    requires IsName(name)
    ensures Occurs(a + ("{" + (name + ("}" + b))), name)
  {
    var out := a + ("{" + (name + ("}" + b)));
    assert out[|a| + 1..|a| + 1 + |name|] == name;
    assert OccursAt(out, |a|, name);
  }

  lemma EmittedStarts(t: string, vars: Vars)
    requires t != "" && BraceFree(vars)
    ensures FrontTemplate(t).None? ==> Emitted(t, vars) == [t[0]]
    ensures FrontTemplate(t).Some? && FrontTemplate(t).value !in vars ==>
              |Emitted(t, vars)| > 0 && Emitted(t, vars)[0] == '{'
    ensures FrontTemplate(t).Some? && FrontTemplate(t).value in vars ==>
              '}' !in Emitted(t, vars) && Emitted(t, vars) == vars[FrontTemplate(t).value]
  {
  }

  /** If name characters and a closing brace are to come out, the first step either runs or is that brace. */
  lemma FirstOfName(t: string, vars: Vars, name: string, tail: string)
    requires t != "" && BraceFree(vars) && AllNameChars(name)
    requires Emitted(t, vars) <= name + ("}" + tail)
    ensures if Runs(t, vars) then Emitted(t, vars) <= name else name == "" && t[0] == '}'
  {
    var e, out := Emitted(t, vars), name + ("}" + tail);
    assert out[|name|] == '}' && forall k | 0 <= k < |name| :: out[k] == name[k];
    assert forall k | 0 <= k < |e| :: e[k] == out[k];
    EmittedStarts(t, vars);
  }

  lemma DropFront(e: string, x: string, name: string, rest: string)
    requires e + x == name + rest && e <= name
    ensures x == name[|e|..] + rest && e + name[|e|..] == name
  {
    assert (e + x)[|e|..] == x;
    assert (name + rest)[|e|..] == name[|e|..] + rest;
  }

  /** Name characters and a closing brace at the front of the result come from a closed run. */
  lemma {:induction false} NameComesFrom(t: string, vars: Vars, name: string, tail: string)
    requires BraceFree(vars) && AllNameChars(name) && Substitute(t, vars) == name + ("}" + tail)
    ensures Closes(t, vars) && RunText(t, vars) == name
    decreases |t|
  {
    FirstOfName(t, vars, name, tail);
    if Runs(t, vars) {
      DropFront(Emitted(t, vars), Substitute(t[Stride(t)..], vars), name, "}" + tail);
      NameComesFrom(t[Stride(t)..], vars, name[|Emitted(t, vars)|..], tail);
    }
  }

  /** A template in the result stood unbound in the text, or was formed by the substitution. */
  ghost predicate ComesFrom(s: string, vars: Vars, name: string) {
    (Occurs(s, name) && name !in vars) || FormsName(s, vars, name)
  }

  lemma ComesFromLater(s: string, vars: Vars, name: string)
    requires s != "" && ComesFrom(s[Stride(s)..], vars, name)
    ensures ComesFrom(s, vars, name)
  {
    if Occurs(s[Stride(s)..], name) && name !in vars {
      var i: nat :| OccursAt(s[Stride(s)..], i, name);
      OccursLater(s, Stride(s), i, name);
    }
  }

  lemma TwoAtFront(m: string, x: string, name: string)
    requires IsName(m) && OccursAt("{" + m + "}" + x, 0, name)
    ensures m == name
  {
    var out := "{" + m + "}" + x;
    assert out[1..1 + |m|] == m;
    assert OccursAt(out, 0, m);
    NoOverlap(out, 0, m, 0, name);
  }

  lemma UnboundComesFrom(s: string, vars: Vars, name: string)
    requires BraceFree(vars) && OccursAt(Substitute(s, vars), 0, name)
    requires s != "" && FrontTemplate(s).Some? && FrontTemplate(s).value !in vars
    ensures ComesFrom(s, vars, name)
  {
    FrontTemplateOccurs(s, FrontTemplate(s).value);
    TwoAtFront(FrontTemplate(s).value, Substitute(s[Stride(s)..], vars), name);
    assert Occurs(s, name);
  }

  lemma BehindBrace(c: char, x: string, name: string)
    requires OccursAt([c] + x, 0, name)
    ensures c == '{' && |name| < |x| && x == name + ("}" + x[|name| + 1..])
  {
    var out := [c] + x;
    assert out[1..1 + |name|] == x[..|name|];
  }

  lemma BraceComesFrom(s: string, vars: Vars, name: string)
    requires BraceFree(vars) && OccursAt(Substitute(s, vars), 0, name)
    requires s != "" && FrontTemplate(s).None?
    ensures ComesFrom(s, vars, name)
  {
    var x := Substitute(s[1..], vars);
    ScanStep(s, vars);
    assert s[..1] == [s[0]];
    BehindBrace(s[0], x, name);
    NameComesFrom(s[1..], vars, name, x[|name| + 1..]);
    assert FormsFront(s, vars, name);
  }

  /** At the very front of the result. */
  lemma FrontComesFrom(s: string, vars: Vars, name: string)
    requires s != "" && BraceFree(vars) && OccursAt(Substitute(s, vars), 0, name) && Emitted(s, vars) != ""
    ensures ComesFrom(s, vars, name)
  {
    if FrontTemplate(s).None? {
      BraceComesFrom(s, vars, name);
    } else {
      ScanStep(s, vars);
      assert Emitted(s, vars)[0] == '{';
      UnboundComesFrom(s, vars, name);
    }
  }

  lemma {:induction false} OccursComesFrom(s: string, vars: Vars, out: string, p: nat, name: string)
    requires BraceFree(vars) && out == Substitute(s, vars) && OccursAt(out, p, name)
    ensures ComesFrom(s, vars, name)
    decreases |s|
  {
    var e, x := Emitted(s, vars), Substitute(s[Stride(s)..], vars);
    if p >= |e| {
      OccursInSecond(e, x, p, name);
      OccursComesFrom(s[Stride(s)..], vars, x, p - |e|, name);
      ComesFromLater(s, vars, name);
    } else {
      assert e[p] == (e + x)[p] == '{';
      OnlyFirstBrace(s, vars, p);
      FrontComesFrom(s, vars, name);
    }
  }

  lemma OccursInSecond(e: string, x: string, p: nat, name: string)
    requires OccursAt(e + x, p, name) && p >= |e|
    ensures OccursAt(x, p - |e|, name)
  {
    assert (e + x)[|e|..] == x;
    OccursLater(e + x, |e|, p - |e|, name);
  }

  lemma OnlyFirstBrace(s: string, vars: Vars, p: nat)
    requires s != "" && BraceFree(vars) && p < |Emitted(s, vars)| && Emitted(s, vars)[p] == '{'
    ensures p == 0
  {
    if FrontTemplate(s).Some? {
      FrontTemplateOccurs(s, FrontTemplate(s).value);
    }
  }

  /**
   With values that hold no brace, the templates of the result are exactly those that stood
   unbound in the text and those the substitution formed.
   */
  lemma OccursAfterIff(s: string, vars: Vars, name: string)
    requires BraceFree(vars)
    ensures Occurs(Substitute(s, vars), name) <==> ComesFrom(s, vars, name)
  {
    if Occurs(Substitute(s, vars), name) {
      var p: nat :| OccursAt(Substitute(s, vars), p, name);
      OccursComesFrom(s, vars, Substitute(s, vars), p, name);
    }
    if FormsName(s, vars, name) {
      FormedOccurs(s, vars, name);
    } else if Occurs(s, name) && name !in vars {
      var i: nat :| OccursAt(s, i, name);
      ValuesAreVerbatim(s, vars, i, name);
      UnboundStays(Substitute(s[..i], vars), name, Substitute(s[i + |name| + 2..], vars));
    }
  }

  lemma UnboundStays(a: string, name: string, b: string)
    requires IsName(name)
    ensures Occurs(a + (("{" + name + "}") + b), name)
  {
    OccursBetween(a, name, b);
    assert a + (("{" + name + "}") + b) == a + ("{" + (name + ("}" + b)));
  }

  /** The number of opening braces. */
  function Braces(s: string): nat {
    if s == "" then 0 else (if s[0] == '{' then 1 else 0) + Braces(s[1..])
  }

  lemma {:induction false} BracesAppend(a: string, b: string)
    ensures Braces(a + b) == Braces(a) + Braces(b)
  {
    if a == "" {
      assert a + b == b;
    } else {
      assert (a + b)[1..] == a[1..] + b;
      BracesAppend(a[1..], b);
    }
  }

  lemma {:induction false} NoBraces(s: string)
    requires '{' !in s
    ensures Braces(s) == 0
  {
    if s != "" {
      NoBraces(s[1..]);
    }
  }

  lemma TemplateText(s: string)
    requires FrontTemplate(s).Some?
    ensures s[..Stride(s)] == "{" + FrontTemplate(s).value + "}"
  {
    FrontTemplateOccurs(s, FrontTemplate(s).value);
  }

  lemma EmissionBraces(s: string, vars: Vars)
    requires s != "" && BraceFree(vars)
    ensures Braces(Emitted(s, vars)) <= Braces(s[..Stride(s)])
  {
    if FrontTemplate(s).Some? {
      TemplateText(s);
      if FrontTemplate(s).value in vars {
        NoBraces(vars[FrontTemplate(s).value]);
      }
    }
  }

  lemma BracesStep(s: string, k: nat, e: string, x: string)
    requires k <= |s| && Braces(e) <= Braces(s[..k]) && Braces(x) <= Braces(s[k..])
    ensures Braces(e + x) <= Braces(s)
  {
    BracesAppend(e, x);
    BracesAppend(s[..k], s[k..]);
    assert s[..k] + s[k..] == s;
  }

  lemma {:induction false} BracesShrink(s: string, vars: Vars)
    requires BraceFree(vars)
    ensures Braces(Substitute(s, vars)) <= Braces(s)
    decreases |s|
  {
    if s != "" {
      EmissionBraces(s, vars);
      BracesShrink(s[Stride(s)..], vars);
      BracesStep(s, Stride(s), Emitted(s, vars), Substitute(s[Stride(s)..], vars));
    }
  }

  lemma BracesOfTemplate(a: string, name: string, b: string)
    ensures Braces(a + (("{" + name + "}") + b)) >= Braces(a) + 1 + Braces(b)
  {
    var t := "{" + name + "}";
    BracesAppend(a, t + b);
    BracesAppend(t, b);
    assert t[0] == '{';
  }

  lemma BracesOfValue(a: string, v: string, b: string)
    requires '{' !in v
    ensures Braces(a + (v + b)) == Braces(a) + Braces(b)
  {
    BracesAppend(a, v + b);
    BracesAppend(v, b);
    NoBraces(v);
  }

  lemma AroundTemplate(s: string, i: nat, name: string)
    requires OccursAt(s, i, name)
    ensures s == s[..i] + (("{" + name + "}") + s[i + |name| + 2..])
  {
  }

  /** A bound template costs a brace, so substituting it changes the text. */
  lemma BoundChanges(s: string, vars: Vars, i: nat, name: string)
    requires BraceFree(vars) && OccursAt(s, i, name) && name in vars
    ensures Braces(Substitute(s, vars)) < Braces(s)
  {
    var a, b := s[..i], s[i + |name| + 2..];
    ValuesAreVerbatim(s, vars, i, name);
    BracesOfValue(Substitute(a, vars), vars[name], Substitute(b, vars));
    assert Braces(Substitute(s, vars)) == Braces(Substitute(a, vars)) + Braces(Substitute(b, vars));
    BracesShrink(a, vars);
    BracesShrink(b, vars);
    AroundTemplate(s, i, name);
    BracesOfTemplate(a, name, b);
  }

  lemma UnboundLater(s: string, vars: Vars, k: nat)
    requires k <= |s| && forall name | Occurs(s, name) :: name !in vars
    ensures forall name | Occurs(s[k..], name) :: name !in vars
  {
    forall name | Occurs(s[k..], name)
      ensures Occurs(s, name)
    {
      var i: nat :| OccursAt(s[k..], i, name);
      OccursLater(s, k, i, name);
    }
  }

  lemma {:induction false} OnlyUnboundNoChange(s: string, vars: Vars)
    requires forall name | Occurs(s, name) :: name !in vars
    ensures Substitute(s, vars) == s
    decreases |s|
  {
    if s != "" {
      var k := Stride(s);
      UnboundLater(s, vars, k);
      OnlyUnboundNoChange(s[k..], vars);
      UnboundEmission(s, vars);
      Rejoin(s, k, Emitted(s, vars), Substitute(s[k..], vars));
    }
  }

  lemma Rejoin(s: string, k: nat, e: string, x: string)
    requires k <= |s| && e == s[..k] && x == s[k..]
    ensures e + x == s
  {
  }

  lemma UnboundEmission(s: string, vars: Vars)
    requires s != "" && forall name | Occurs(s, name) :: name !in vars
    ensures Emitted(s, vars) == s[..Stride(s)]
  {
    if FrontTemplate(s).Some? {
      FrontTemplateOccurs(s, FrontTemplate(s).value);
      TemplateText(s);
    }
  }

  /** With values that hold no brace, a second pass changes nothing exactly when the first forms no bound name. */
  lemma SecondPassIff(s: string, vars: Vars)
    requires BraceFree(vars)
    ensures Substitute(Substitute(s, vars), vars) == Substitute(s, vars)
            <==> forall name | name in vars :: !FormsName(s, vars, name)
  {
    var out := Substitute(s, vars);
    if forall name | name in vars :: !FormsName(s, vars, name) {
      forall name | Occurs(out, name)
        ensures name !in vars
      {
        OccursAfterIff(s, vars, name);
      }
      OnlyUnboundNoChange(out, vars);
    } else {
      var name :| name in vars && FormsName(s, vars, name);
      OccursAfterIff(s, vars, name);
      var i: nat :| OccursAt(out, i, name);
      BoundChanges(out, vars, i, name);
    }
  }

  ghost predicate HasTemplate(s: string) {
    exists name :: Occurs(s, name)
  }

  ghost predicate FormsSome(s: string, vars: Vars) {
    exists name :: FormsName(s, vars, name)
  }

  /**
   With values that hold no brace, the result has no template exactly when every name that
   occurs is bound and the substitution forms none; then no further pass, with whatever
   variables, changes anything.
   */
  lemma OnePassIsEnough(s: string, vars: Vars)
    requires BraceFree(vars)
    ensures !HasTemplate(Substitute(s, vars))
            <==> (forall name | Occurs(s, name) :: name in vars) && !FormsSome(s, vars)
    ensures !HasTemplate(Substitute(s, vars)) ==>
              forall again :: Substitute(Substitute(s, vars), again) == Substitute(s, vars)
  {
    var out := Substitute(s, vars);
    if HasTemplate(out) {
      var name :| Occurs(out, name);
      OccursAfterIff(s, vars, name);
    } else {
      forall name
        ensures !FormsName(s, vars, name)
        ensures Occurs(s, name) ==> name in vars
      {
        OccursAfterIff(s, vars, name);
      }
      forall again
        ensures Substitute(out, again) == out
      {
        NoTemplateNoChange(out, again);
      }
    }
  }

  /** Nested braces do get substituted by a second pass. */
  lemma NestedBracesRescan()
    ensures var vars := map["a" := "b", "b" := "c"];
            Substitute("{{a}}", vars) == "{b}" && Substitute("{b}", vars) == "c"
  {
    var vars := map["a" := "b", "b" := "c"];
    assert "{{a}}"[1..] == "{a}}" && "{a}}"[1..2] == "a";
    FrontTemplateOccurs("{a}}", "a");
    assert FrontTemplate("{{a}}") == None;
    assert "{a}}"[3..] == "}" && "}"[1..] == "";
    assert Substitute("}", vars) == "}";
    assert Substitute("{a}}", vars) == "b}";
    assert "{b}"[1..2] == "b";
    FrontTemplateOccurs("{b}", "b");
    assert "{b}"[3..] == "";
  }

  // ------------------------------------------------------------------------ trees

  /** A pipeline definition as parsed; `Leaf` is a number, a boolean or null. */
  datatype Json = Str(text: string) | Arr(items: seq<Json>) | Obj(fields: seq<(string, Json)>) | Leaf(id: int)

  function Walk(v: Json, vars: Vars): Json {
    match v
    case Str(s) => Str(Substitute(s, vars))
    case Arr(items) => Arr(seq(|items|, i requires 0 <= i < |items| => Walk(items[i], vars)))
    case Obj(fields) => Obj(seq(|fields|, i requires 0 <= i < |fields| => (fields[i].0, Walk(fields[i].1, vars))))
    case Leaf(_) => v
  }

  function AllMissing(v: Json, vars: Vars): set<string> {
    match v
    case Str(s) => Missing(s, vars)
    case Arr(items) => set i, m | 0 <= i < |items| && m in AllMissing(items[i], vars) :: m
    case Obj(fields) => set i, m | 0 <= i < |fields| && m in AllMissing(fields[i].1, vars) :: m
    case Leaf(_) => {}
  }

  /** Alike but for the contents of strings. */
  predicate SameShape(v: Json, w: Json) {
    match v
    case Str(_) => w.Str?
    case Arr(items) => w.Arr? && |w.items| == |items| && forall i | 0 <= i < |items| :: SameShape(items[i], w.items[i])
    case Obj(fields) =>
      w.Obj? && |w.fields| == |fields|
      && forall i | 0 <= i < |fields| :: fields[i].0 == w.fields[i].0 && SameShape(fields[i].1, w.fields[i].1)
    case Leaf(_) => w == v
  }

  /** Some string of the tree, at whatever depth, holds a template with this name. */
  ghost predicate TreeOccurs(v: Json, name: string) {
    match v
    case Str(s) => Occurs(s, name)
    case Arr(items) => exists i | 0 <= i < |items| :: TreeOccurs(items[i], name)
    case Obj(fields) => exists i | 0 <= i < |fields| :: TreeOccurs(fields[i].1, name)
    case Leaf(_) => false
  }

  lemma {:induction false} ShapeKept(v: Json, vars: Vars)
    ensures SameShape(v, Walk(v, vars))
  {
    match v
    case Str(_) =>
    case Arr(items) =>
      forall i | 0 <= i < |items|
        ensures SameShape(items[i], Walk(items[i], vars))
      {
        ShapeKept(items[i], vars);
      }
    case Obj(fields) =>
      forall i | 0 <= i < |fields|
        ensures SameShape(fields[i].1, Walk(fields[i].1, vars))
      {
        ShapeKept(fields[i].1, vars);
      }
    case Leaf(_) =>
  }

  lemma {:induction false} TreeMissingExact(v: Json, vars: Vars, name: string)
    ensures name in AllMissing(v, vars) <==> TreeOccurs(v, name) && name !in vars
  {
    match v
    case Str(s) => MissingExact(s, vars, name);
    case Arr(items) =>
      forall i | 0 <= i < |items|
        ensures name in AllMissing(items[i], vars) <==> TreeOccurs(items[i], name) && name !in vars
      {
        TreeMissingExact(items[i], vars, name);
      }
    case Obj(fields) =>
      forall i | 0 <= i < |fields|
        ensures name in AllMissing(fields[i].1, vars) <==> TreeOccurs(fields[i].1, name) && name !in vars
      {
        TreeMissingExact(fields[i].1, vars, name);
      }
    case Leaf(_) =>
  }

  /** Nothing is missing exactly when every template name in every string of the tree is bound. */
  lemma NothingMissingIff(v: Json, vars: Vars)
    ensures AllMissing(v, vars) == {} <==> forall name | TreeOccurs(v, name) :: name in vars
  {
    forall name
      ensures name in AllMissing(v, vars) <==> TreeOccurs(v, name) && name !in vars
    {
      TreeMissingExact(v, vars, name);
    }
  }

  // ------------------------------------------------------- a second pass over a tree

  /** The substitution puts this name together in some string of the tree. */
  ghost predicate TreeForms(v: Json, vars: Vars, name: string) {
    match v
    case Str(s) => FormsName(s, vars, name)
    case Arr(items) => exists i | 0 <= i < |items| :: TreeForms(items[i], vars, name)
    case Obj(fields) => exists i | 0 <= i < |fields| :: TreeForms(fields[i].1, vars, name)
    case Leaf(_) => false
  }

  ghost predicate TreeHasTemplate(v: Json) {
    exists name :: TreeOccurs(v, name)
  }

  ghost predicate TreeFormsSome(v: Json, vars: Vars) {
    exists name :: TreeForms(v, vars, name)
  }

  /** The templates of a substituted tree are the unbound ones and those put together. */
  lemma {:induction false} TreeOccursAfterIff(v: Json, vars: Vars, name: string)
    requires BraceFree(vars)
    ensures TreeOccurs(Walk(v, vars), name) <==> (TreeOccurs(v, name) && name !in vars) || TreeForms(v, vars, name)
  {
    match v
    case Str(s) => OccursAfterIff(s, vars, name);
    case Arr(items) =>
      forall i | 0 <= i < |items|
        ensures TreeOccurs(Walk(items[i], vars), name)
                <==> (TreeOccurs(items[i], name) && name !in vars) || TreeForms(items[i], vars, name)
      {
        TreeOccursAfterIff(items[i], vars, name);
      }
      var walked := Walk(v, vars).items;
      assert |walked| == |items| && forall i | 0 <= i < |items| :: walked[i] == Walk(items[i], vars);
      assert TreeOccurs(Walk(v, vars), name) <==> exists i | 0 <= i < |items| :: TreeOccurs(walked[i], name);
    case Obj(fields) =>
      forall i | 0 <= i < |fields|
        ensures TreeOccurs(Walk(fields[i].1, vars), name)
                <==> (TreeOccurs(fields[i].1, name) && name !in vars) || TreeForms(fields[i].1, vars, name)
      {
        TreeOccursAfterIff(fields[i].1, vars, name);
      }
      var walked := Walk(v, vars).fields;
      assert |walked| == |fields| && forall i | 0 <= i < |fields| :: walked[i].1 == Walk(fields[i].1, vars);
      assert TreeOccurs(Walk(v, vars), name) <==> exists i | 0 <= i < |fields| :: TreeOccurs(walked[i].1, name);
    case Leaf(_) =>
  }

  /** A pass leaves a tree alone exactly when every name that would be inserted is inserted as itself. */
  lemma {:induction false} SecondWalkIff(v: Json, vars: Vars)
    requires BraceFree(vars)
    ensures Walk(Walk(v, vars), vars) == Walk(v, vars) <==> forall name | name in vars :: !TreeForms(v, vars, name)
  {
    match v
    case Str(s) => SecondPassIff(s, vars);
    case Arr(items) =>
      var once := Walk(v, vars).items;
      forall i | 0 <= i < |items|
        ensures Walk(Walk(items[i], vars), vars) == Walk(items[i], vars)
                <==> forall name | name in vars :: !TreeForms(items[i], vars, name)
      {
        SecondWalkIff(items[i], vars);
      }
      assert |once| == |items| && forall i | 0 <= i < |items| :: once[i] == Walk(items[i], vars);
      SameItems(once, vars);
    case Obj(fields) =>
      var once := Walk(v, vars).fields;
      forall i | 0 <= i < |fields|
        ensures Walk(Walk(fields[i].1, vars), vars) == Walk(fields[i].1, vars)
                <==> forall name | name in vars :: !TreeForms(fields[i].1, vars, name)
      {
        SecondWalkIff(fields[i].1, vars);
      }
      assert |once| == |fields| && forall i | 0 <= i < |fields| :: once[i].1 == Walk(fields[i].1, vars);
      SameFields(once, vars);
    case Leaf(_) =>
  }

  lemma SameItems(items: seq<Json>, vars: Vars)
    ensures Walk(Arr(items), vars) == Arr(items) <==> forall i | 0 <= i < |items| :: Walk(items[i], vars) == items[i]
  {
    var walked := Walk(Arr(items), vars);
    if forall i | 0 <= i < |items| :: Walk(items[i], vars) == items[i] {
      assert walked.items == items;
    } else {
      var i :| 0 <= i < |items| && Walk(items[i], vars) != items[i];
      assert walked.items[i] != items[i];
    }
  }

  lemma SameFields(fields: seq<(string, Json)>, vars: Vars)
    ensures Walk(Obj(fields), vars) == Obj(fields) <==> forall i | 0 <= i < |fields| :: Walk(fields[i].1, vars) == fields[i].1
  {
    var walked := Walk(Obj(fields), vars);
    if forall i | 0 <= i < |fields| :: Walk(fields[i].1, vars) == fields[i].1 {
      assert walked.fields == fields;
    } else {
      var i :| 0 <= i < |fields| && Walk(fields[i].1, vars) != fields[i].1;
      assert walked.fields[i] != fields[i];
    }
  }

  lemma {:induction false} NoTemplateNoWalk(v: Json, vars: Vars)
    requires !TreeHasTemplate(v)
    ensures Walk(v, vars) == v
  {
    match v
    case Str(s) =>
      assert forall name | Occurs(s, name) :: TreeOccurs(v, name);
      NoTemplateNoChange(s, vars);
    case Arr(items) =>
      forall i | 0 <= i < |items|
        ensures Walk(items[i], vars) == items[i]
      {
        assert forall name | TreeOccurs(items[i], name) :: TreeOccurs(v, name);
        NoTemplateNoWalk(items[i], vars);
      }
      SameItems(items, vars);
    case Obj(fields) =>
      forall i | 0 <= i < |fields|
        ensures Walk(fields[i].1, vars) == fields[i].1
      {
        assert forall name | TreeOccurs(fields[i].1, name) :: TreeOccurs(v, name);
        NoTemplateNoWalk(fields[i].1, vars);
      }
      SameFields(fields, vars);
    case Leaf(_) =>
  }

  lemma LeftOverFrom(v: Json, vars: Vars)
    requires BraceFree(vars) && TreeHasTemplate(Walk(v, vars))
    ensures TreeFormsSome(v, vars) || exists name :: TreeOccurs(v, name) && name !in vars
  {
    var name :| TreeOccurs(Walk(v, vars), name);
    TreeOccursAfterIff(v, vars, name);
  }

  lemma LeftOver(v: Json, vars: Vars, name: string)
    requires BraceFree(vars) && (TreeForms(v, vars, name) || (TreeOccurs(v, name) && name !in vars))
    ensures TreeHasTemplate(Walk(v, vars))
  {
    TreeOccursAfterIff(v, vars, name);
  }

  /**
   With values that hold no brace, a substituted pipeline has no template left in any string
   exactly when nothing was missing and nothing is put together; then no further pass, with
   whatever variables, changes it.
   */
  lemma OneWalkIsEnough(v: Json, vars: Vars)
    requires BraceFree(vars)
    ensures !TreeHasTemplate(Walk(v, vars)) <==> AllMissing(v, vars) == {} && !TreeFormsSome(v, vars)
    ensures !TreeHasTemplate(Walk(v, vars)) ==> forall again :: Walk(Walk(v, vars), again) == Walk(v, vars)
  {
    NothingMissingIff(v, vars);
    if TreeHasTemplate(Walk(v, vars)) {
      LeftOverFrom(v, vars);
    } else {
      forall again
        ensures Walk(Walk(v, vars), again) == Walk(v, vars)
      {
        NoTemplateNoWalk(Walk(v, vars), again);
      }
    }
    if name :| TreeForms(v, vars, name) {
      LeftOver(v, vars, name);
    } else if name :| TreeOccurs(v, name) && name !in vars {
      LeftOver(v, vars, name);
    }
  }

  // -------------------------------------------------------------------- the walker

  class Walker {
    const vars: Vars
    var missing: set<string>

    constructor (vars: Vars)
      ensures this.vars == vars && missing == {}
    {
      this.vars, missing := vars, {};
    }

    method WalkTree(v: Json) returns (out: Json)
      modifies this`missing
      ensures out == Walk(v, vars) && missing == old(missing) + AllMissing(v, vars)
      decreases v, 1
    {
      match v
      case Str(s) =>
        missing := missing + Missing(s, vars);
        out := Str(Substitute(s, vars));
      case Arr(_) => out := WalkArray(v);
      case Obj(_) => out := WalkObject(v);
      case Leaf(_) => out := v;
    }

    method WalkArray(v: Json) returns (out: Json)
      requires v.Arr?
      modifies this`missing
      ensures out == Walk(v, vars) && missing == old(missing) + AllMissing(v, vars)
      decreases v, 0
    {
      var walked: seq<Json> := [];
      for k := 0 to |v.items|
        invariant |walked| == k && forall i | 0 <= i < k :: walked[i] == Walk(v.items[i], vars)
        invariant missing == old(missing) + MissingUpTo(v.items, k, vars)
      {
        var w := WalkTree(v.items[k]);
        walked := walked + [w];
        MissingNext(v.items, k, vars);
      }
      out := Arr(walked);
    }

    method WalkObject(v: Json) returns (out: Json)
      requires v.Obj?
      modifies this`missing
      ensures out == Walk(v, vars) && missing == old(missing) + AllMissing(v, vars)
      decreases v, 0
    {
      var walked: seq<(string, Json)> := [];
      for k := 0 to |v.fields|
        invariant |walked| == k && forall i | 0 <= i < k :: walked[i] == (v.fields[i].0, Walk(v.fields[i].1, vars))
        invariant missing == old(missing) + MissingUpToField(v.fields, k, vars)
      {
        var w := WalkTree(v.fields[k].1);
        walked := walked + [(v.fields[k].0, w)];
        MissingNextField(v.fields, k, vars);
      }
      out := Obj(walked);
    }
  }

  function MissingUpTo(items: seq<Json>, k: nat, vars: Vars): set<string>
    requires k <= |items|
  {
    set i, m | 0 <= i < k && m in AllMissing(items[i], vars) :: m
  }

  lemma MissingNext(items: seq<Json>, k: nat, vars: Vars)
    requires k < |items|
    ensures MissingUpTo(items, k + 1, vars) == MissingUpTo(items, k, vars) + AllMissing(items[k], vars)
  {
  }

  function MissingUpToField(fields: seq<(string, Json)>, k: nat, vars: Vars): set<string>
    requires k <= |fields|
  {
    set i, m | 0 <= i < k && m in AllMissing(fields[i].1, vars) :: m
  }

  lemma MissingNextField(fields: seq<(string, Json)>, k: nat, vars: Vars)
    requires k < |fields|
    ensures MissingUpToField(fields, k + 1, vars) == MissingUpToField(fields, k, vars) + AllMissing(fields[k].1, vars)
  {
  }
}
