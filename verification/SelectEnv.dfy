/** coolify/types.go: SelectEnvVars, one pass with a map of indexes, and what it selects. */
module SelectEnv {
  import opened Wrappers

  datatype EnvVar = EnvVar(key: string, value: string, realValue: string, isPreview: bool, isCoolify: bool) {
    function EffectiveValue(): string {
      if realValue != "" then realValue else value
    }

    predicate Selected() {
      !isCoolify && !isPreview && key != ""
    }
  }

  datatype Pair = Pair(key: string, value: string)

  /** i is the first selected entry with its key. */
  predicate First(vars: seq<EnvVar>, i: nat)
    requires i < |vars|
  {
    vars[i].Selected() && forall j | 0 <= j < i :: !(vars[j].Selected() && vars[j].key == vars[i].key)
  }

  predicate Last(vars: seq<EnvVar>, i: nat)
    requires i < |vars|
  {
    vars[i].Selected() && forall j | i < j < |vars| :: !(vars[j].Selected() && vars[j].key == vars[i].key)
  }

  /** The keys in the order of their first selected entries. */
  function FirstKeys(vars: seq<EnvVar>): seq<string> {
    if vars == [] then []
    else
      var init, v := vars[..|vars| - 1], vars[|vars| - 1];
      FirstKeys(init) + if First(vars, |vars| - 1) then [v.key] else []
  }

  /** The value of the last selected entry with this key. */
  function LastValue(vars: seq<EnvVar>, key: string): Option<string> {
    if vars == [] then None
    else
      var v := vars[|vars| - 1];
      if v.Selected() && v.key == key then Some(v.EffectiveValue()) else LastValue(vars[..|vars| - 1], key)
  }

  predicate SelectsKey(vars: seq<EnvVar>, key: string) {
    exists i | 0 <= i < |vars| :: vars[i].Selected() && vars[i].key == key
  }

  function KeysOf(pairs: seq<Pair>): seq<string> {
    seq(|pairs|, i requires 0 <= i < |pairs| => pairs[i].key)
  }

  ghost predicate IsSelection(vars: seq<EnvVar>, out: seq<Pair>) {
    && |out| == |FirstKeys(vars)|
    && forall i | 0 <= i < |out| ::
         out[i].key == FirstKeys(vars)[i] && LastValue(vars, out[i].key) == Some(out[i].value)
  }

  lemma {:induction false} FirstKeysExact(vars: seq<EnvVar>)
    ensures forall k :: k in FirstKeys(vars) <==> SelectsKey(vars, k)
    ensures forall i, j | 0 <= i < j < |FirstKeys(vars)| :: FirstKeys(vars)[i] != FirstKeys(vars)[j]
    decreases |vars|
  {
    if vars != [] {
      var init, n := vars[..|vars| - 1], |vars| - 1;
      FirstKeysExact(init);
      assert forall i | 0 <= i < n :: init[i] == vars[i];
      if First(vars, n) {
        assert vars[n].key !in FirstKeys(init);
      }
      forall k ensures k in FirstKeys(vars) <==> SelectsKey(vars, k) {
        if i :| 0 <= i < |vars| && vars[i].Selected() && vars[i].key == k {
          if i < n {
            assert init[i].key == k;
          } else if !First(vars, n) {
            var j :| 0 <= j < n && vars[j].Selected() && vars[j].key == k;
            assert init[j].key == k;
          }
        }
        if k in FirstKeys(init) {
          var i :| 0 <= i < |init| && init[i].Selected() && init[i].key == k;
          assert vars[i].key == k;
        }
      }
    }
  }

  lemma Unselected(before: seq<EnvVar>, e: EnvVar)
    requires !e.Selected()
    ensures FirstKeys(before + [e]) == FirstKeys(before)
    ensures forall k :: LastValue(before + [e], k) == LastValue(before, k)
  {
    assert (before + [e])[..|before|] == before;
  }

  /** One more selected entry: a key not seen before comes last, and its value replaces any earlier one. */
  lemma SelectedStep(before: seq<EnvVar>, e: EnvVar)
    requires e.Selected()
    ensures FirstKeys(before + [e]) == FirstKeys(before) + if e.key in FirstKeys(before) then [] else [e.key]
    ensures forall k :: LastValue(before + [e], k)
                     == if k == e.key then Some(e.EffectiveValue()) else LastValue(before, k)
  {
    var now, n := before + [e], |before|;
    assert now[..n] == before && now[n] == e;
    assert First(now, n) <==> !SelectsKey(before, e.key) by {
      assert forall i | 0 <= i < n :: now[i] == before[i];
    }
    FirstKeysExact(before);
  }

  lemma Added(before: seq<EnvVar>, e: EnvVar, out: seq<Pair>)
    requires IsSelection(before, out) && e.Selected() && e.key !in FirstKeys(before)
    ensures IsSelection(before + [e], out + [Pair(e.key, e.EffectiveValue())])
  {
    SelectedStep(before, e);
  }

  lemma Replaced(before: seq<EnvVar>, e: EnvVar, out: seq<Pair>, i: nat)
    requires IsSelection(before, out) && e.Selected() && i < |out| && out[i].key == e.key
    ensures IsSelection(before + [e], out[i := Pair(e.key, e.EffectiveValue())])
  {
    SelectedStep(before, e);
    FirstKeysExact(before);
    assert e.key == FirstKeys(before)[i];
  }

  /** The pass yields each selected key once, in first-seen order, with the value of its last entry. */
  method SelectEnvVars(vars: seq<EnvVar>) returns (out: seq<Pair>)
    ensures IsSelection(vars, out)
  {
    var seen: map<string, nat> := map[];
    out := [];
    for n := 0 to |vars|
      invariant IsSelection(vars[..n], out)
      invariant forall k :: k in seen <==> k in FirstKeys(vars[..n])
      invariant forall k | k in seen :: seen[k] < |out| && out[seen[k]].key == k
    {
      var e := vars[n];
      ghost var before := vars[..n];
      assert vars[..n + 1] == before + [e];
      if !e.Selected() {
        Unselected(before, e);
        continue;
      }
      SelectedStep(before, e);
      if e.key in seen {
        var i := seen[e.key];
        Replaced(before, e, out, i);
        out := out[i := Pair(e.key, e.EffectiveValue())];
      } else {
        Added(before, e, out);
        seen := seen[e.key := |out|];
        out := out + [Pair(e.key, e.EffectiveValue())];
      }
    }
    assert vars[..|vars|] == vars;
  }

  /** i is the last selected entry with this key, and has this value. */
  predicate LastHas(vars: seq<EnvVar>, i: int, key: string, value: string) {
    0 <= i < |vars| && Last(vars, i) && vars[i].key == key && vars[i].EffectiveValue() == value
  }

  ghost predicate LastIs(vars: seq<EnvVar>, key: string, value: string) {
    exists i :: LastHas(vars, i, key, value)
  }

  lemma {:induction false} LastValueExact(vars: seq<EnvVar>, key: string, value: string)
    ensures LastValue(vars, key) == Some(value) <==> LastIs(vars, key, value)
    decreases |vars|
  {
    if vars != [] {
      var init, n := vars[..|vars| - 1], |vars| - 1;
      assert forall j | 0 <= j < n :: init[j] == vars[j];
      LastValueExact(init, key, value);
      if vars[n].Selected() && vars[n].key == key {
        assert LastHas(vars, n, key, vars[n].EffectiveValue());
        assert forall i :: LastHas(vars, i, key, value) ==> i == n;
      } else {
        assert forall i :: LastHas(vars, i, key, value) <==> LastHas(init, i, key, value);
      }
    }
  }

  /** Where the first selected entry with this key stands; the list's length if there is none. */
  function FirstAt(vars: seq<EnvVar>, key: string): (i: nat)
    ensures i <= |vars| && (i < |vars| ==> First(vars, i) && vars[i].key == key)
    ensures forall j | 0 <= j < i :: !(vars[j].Selected() && vars[j].key == key)
  {
    if vars == [] then 0
    else
      var n := |vars| - 1;
      var i := FirstAt(vars[..n], key);
      if i < n || (vars[n].Selected() && vars[n].key == key) then i else |vars|
  }

  /** An entry added at the end moves no first entry. */
  lemma FirstAtStays(vars: seq<EnvVar>, key: string)
    requires vars != [] && FirstAt(vars[..|vars| - 1], key) < |vars| - 1
    ensures FirstAt(vars, key) == FirstAt(vars[..|vars| - 1], key)
  {
  }

  /** The keys come in the order in which their first entries stand. */
  lemma {:induction false} FirstKeysOrdered(vars: seq<EnvVar>)
    ensures forall i | 0 <= i < |FirstKeys(vars)| :: FirstAt(vars, FirstKeys(vars)[i]) < |vars|
    ensures forall i, j | 0 <= i < j < |FirstKeys(vars)| ::
              FirstAt(vars, FirstKeys(vars)[i]) < FirstAt(vars, FirstKeys(vars)[j])
    decreases |vars|
  {
    if vars != [] {
      var n := |vars| - 1;
      var init, keys := vars[..n], FirstKeys(vars[..n]);
      FirstKeysOrdered(init);
      forall i | 0 <= i < |keys| ensures FirstAt(vars, keys[i]) == FirstAt(init, keys[i]) < n {
        FirstAtStays(vars, keys[i]);
      }
      if First(vars, n) {
        assert FirstKeys(vars) == keys + [vars[n].key];
        assert FirstAt(vars, vars[n].key) == n;
      }
    }
  }

  /** A selection holds every selected key exactly once, in first-seen order, with the last entry's value. */
  lemma SelectionExact(vars: seq<EnvVar>, out: seq<Pair>)
    requires IsSelection(vars, out)
    ensures forall i, j | 0 <= i < j < |out| :: out[i].key != out[j].key
    ensures forall k :: k in KeysOf(out) <==> SelectsKey(vars, k)
    ensures forall i, j | 0 <= i < j < |out| :: FirstAt(vars, out[i].key) < FirstAt(vars, out[j].key) < |vars|
    ensures forall i | 0 <= i < |out| :: LastIs(vars, out[i].key, out[i].value)
  {
    FirstKeysExact(vars);
    FirstKeysOrdered(vars);
    assert KeysOf(out) == FirstKeys(vars);
    forall i | 0 <= i < |out| ensures LastIs(vars, out[i].key, out[i].value) {
      LastValueExact(vars, out[i].key, out[i].value);
    }
  }

  // ----- on the fields themselves -----

  /** An entry kuso imports: neither the preview's nor Coolify's own, and with a name. */
  predicate Imported(e: EnvVar, key: string) {
    e == EnvVar(key, e.value, e.realValue, false, false) && |key| > 0
  }

  /** The i-th entry is the last imported one of this name, and what it really holds is `value`. */
  predicate Holds(vars: seq<EnvVar>, i: int, key: string, value: string) {
    && 0 <= i < |vars| && Imported(vars[i], key)
    && (forall j | i < j < |vars| :: !Imported(vars[j], key))
    && (vars[i].realValue == value != "" || (vars[i].realValue == "" && vars[i].value == value))
  }

  lemma ImportedExact(e: EnvVar, key: string)
    ensures Imported(e, key) <==> e.Selected() && e.key == key
  {
  }

  lemma HoldsExact(vars: seq<EnvVar>, i: int, key: string, value: string)
    ensures Holds(vars, i, key, value) <==> LastHas(vars, i, key, value)
  {
    if 0 <= i < |vars| {
      forall j | 0 <= j < |vars| ensures Imported(vars[j], key) <==> vars[j].Selected() && vars[j].key == key {
        ImportedExact(vars[j], key);
      }
    }
  }

  /** A pair is in the output exactly if the last production entry of its name, not Coolify's own, holds its value. */
  lemma OutputExact(vars: seq<EnvVar>, out: seq<Pair>, key: string, value: string)
    requires IsSelection(vars, out)
    ensures Pair(key, value) in out <==> exists i :: Holds(vars, i, key, value)
  {
    SelectionExact(vars, out);
    FirstKeysExact(vars);
    LastValueExact(vars, key, value);
    forall i ensures Holds(vars, i, key, value) <==> LastHas(vars, i, key, value) {
      HoldsExact(vars, i, key, value);
    }
    if LastIs(vars, key, value) {
      var i :| LastHas(vars, i, key, value);
      assert key in KeysOf(out);
      var j :| 0 <= j < |out| && KeysOf(out)[j] == key;
      assert out[j] == Pair(key, value);
    }
  }

  /** Where the first imported entry of the name stands decides where its pair does. */
  lemma OutputOrder(vars: seq<EnvVar>, out: seq<Pair>, i: nat, j: nat)
    requires IsSelection(vars, out) && i < |out| && j < |out|
    requires exists a | 0 <= a < |vars| ::
               Imported(vars[a], out[i].key) && forall b | 0 <= b <= a :: !Imported(vars[b], out[j].key)
    ensures i < j
  {
    SelectionExact(vars, out);
    var a :| 0 <= a < |vars| && Imported(vars[a], out[i].key)
             && forall b | 0 <= b <= a :: !Imported(vars[b], out[j].key);
    ImportedExact(vars[a], out[i].key);
    var fi, fj := FirstAt(vars, out[i].key), FirstAt(vars, out[j].key);
    assert fi <= a;
    ImportedExact(vars[fj], out[j].key);
    assert a < fj;
  }

  lemma SameStep(a: seq<EnvVar>, b: seq<EnvVar>, x: EnvVar)
    requires FirstKeys(a) == FirstKeys(b) && forall k :: LastValue(a, k) == LastValue(b, k)
    ensures FirstKeys(a + [x]) == FirstKeys(b + [x])
    ensures forall k :: LastValue(a + [x], k) == LastValue(b + [x], k)
  {
    if x.Selected() {
      SelectedStep(a, x);
      SelectedStep(b, x);
    } else {
      Unselected(a, x);
      Unselected(b, x);
    }
  }

  /** An entry of a preview, or of Coolify's own, or without a name might as well not be there. */
  lemma {:induction false} IgnoredAnywhere(before: seq<EnvVar>, e: EnvVar, after: seq<EnvVar>)
    requires e.isPreview || e.isCoolify || e.key == ""
    ensures FirstKeys(before + ([e] + after)) == FirstKeys(before + after)
    ensures forall k :: LastValue(before + ([e] + after), k) == LastValue(before + after, k)
    decreases |after|
  {
    if after == [] {
      assert before + ([e] + after) == before + [e] && before + after == before;
      Unselected(before, e);
    } else {
      var init, x := after[..|after| - 1], after[|after| - 1];
      IgnoredAnywhere(before, e, init);
      assert before + ([e] + after) == (before + ([e] + init)) + [x];
      assert before + after == (before + init) + [x];
      SameStep(before + ([e] + init), before + init, x);
    }
  }

  /** So the pass gives the same output without it. */
  lemma IgnoredDropped(before: seq<EnvVar>, e: EnvVar, after: seq<EnvVar>, out: seq<Pair>)
    requires e.isPreview || e.isCoolify || e.key == ""
    ensures IsSelection(before + ([e] + after), out) <==> IsSelection(before + after, out)
  {
    IgnoredAnywhere(before, e, after);
  }

  lemma {:induction false} SelectionUnique(vars: seq<EnvVar>, out: seq<Pair>, other: seq<Pair>)
    requires IsSelection(vars, out) && IsSelection(vars, other)
    ensures out == other
  {
    forall i | 0 <= i < |out| ensures out[i] == other[i] {
      assert Some(out[i].value) == LastValue(vars, out[i].key) == Some(other[i].value);
    }
  }
}
