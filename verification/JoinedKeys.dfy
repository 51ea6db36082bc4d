/** The key that joins state and input name: when the duplicate check of the validator refuses a table it should not. */
module JoinedKeys {
  import opened Options
  import opened SpecValidation

  // ----- when two pairs share a key

  /** `t` continues `s` with the separator, or with the half of it that the separator after `t` completes. */
  predicate Shadows(s: string, t: string)
  {
    s != "" && (t == s + ":" || s + "::" <= t)
  }

  ghost predicate Collide(s: string, on: string, t: string, on': string)
  {
    on != "" && on' != "" && Key(s, on) == Key(t, on')
  }

  lemma CollisionShadows(s: string, on: string, t: string, on': string)
    requires s != "" && |s| < |t| && Collide(s, on, t, on')
    ensures Shadows(s, t)
  {
    var k, key, key' := |s|, Key(s, on), Key(t, on');
    assert key[..k] == s && key[k] == ':' && key[k + 1] == ':';
    assert key'[..|t|] == t && t[..k] == s && t[k] == ':';
    if |t| == k + 1 {
      assert t == s + ":";
    } else {
      assert key'[k + 1] == t[k + 1];
      assert t[..k + 2] == s + "::";
    }
  }

  lemma ShadowCollides(s: string, t: string) returns (on: string, on': string)
    requires Shadows(s, t)
    ensures |s| < |t| && Collide(s, on, t, on')
  {
    on' := "x";
    if t == s + ":" {
      on := ":x";
      assert Key(s, on) == s + ":::x" == Key(t, on');
    } else {
      var rest := t[|s| + 2..];
      assert t == s + "::" + rest;
      on := rest + "::x";
      assert Key(s, on) == s + "::" + rest + "::x" == Key(t, on');
    }
  }

  /** Two states of different length share a key for some inputs exactly when the shorter shadows the longer. */
  lemma CollideIff(s: string, t: string)
    requires s != "" && |s| < |t|
    ensures (exists on, on' :: Collide(s, on, t, on')) <==> Shadows(s, t)
  {
    if on, on' :| Collide(s, on, t, on') {
      CollisionShadows(s, on, t, on');
    }
    if Shadows(s, t) {
      var on, on' := ShadowCollides(s, t);
    }
  }

  /** States of one length share a key only for one pair. */
  lemma SameLength(s: string, on: string, t: string, on': string)
    requires |s| == |t| && Key(s, on) == Key(t, on')
    ensures s == t && on == on'
  {
    assert Key(s, on)[..|s|] == s && Key(t, on')[..|t|] == t;
    assert Key(s, on)[|s| + 2..] == on && Key(t, on')[|t| + 2..] == on';
  }

  // ----- what the check is meant to do

  predicate SamePair(a: RawTransition, b: RawTransition)
  {
    Readable(a) && Readable(b) && a.from == b.from && a.on == b.on
  }

  /** An earlier entry has the same state and the same input. */
  ghost predicate PairRepeated(raws: seq<RawTransition>, i: nat)
    requires i < |raws|
  {
    exists j :: 0 <= j < i && SamePair(raws[j], raws[i])
  }

  /** Like the clean entries and specifications of the validator, with pairs in place of keys. */
  ghost predicate PairCleanAt(raws: seq<RawTransition>, i: nat, states: seq<string>, allowlist: seq<string>)
    requires i < |raws|
  {
    && Readable(raws[i]) && !PairRepeated(raws, i) && PartsValid(raws[i])
    && raws[i].from.value in states && raws[i].to.value in states
    && forall e :: e in Listed(raws[i].effects) ==> e.kind in allowlist
  }

  ghost predicate PairClean(raw: RawSpec)
  {
    && CleanHeader(raw)
    && raw.initialState.value in raw.states.value
    && (forall s :: s in raw.terminalStates.value ==> s in raw.states.value)
    && (forall i :: 0 <= i < |raw.transitions.value| ==>
          PairCleanAt(raw.transitions.value, i, raw.states.value, raw.allowlist.value))
    && !raw.timeouts.Invalid?
    && forall t :: t in Listed(raw.timeouts) ==> t.inState in raw.states.value
  }

  lemma SamePairSameKey(a: RawTransition, b: RawTransition)
    ensures SamePair(a, b) ==> KeyOf(a) == KeyOf(b)
  {
  }

  /** What is accepted is in order: a repeated pair has a repeated key. */
  lemma CleanIsPairClean(raw: RawSpec)
    requires Clean(raw)
    ensures PairClean(raw)
  {
    var raws := raw.transitions.value;
    forall i | 0 <= i < |raws|
      ensures PairCleanAt(raws, i, raw.states.value, raw.allowlist.value)
    {
      assert CleanAt(raws, i, raw.states.value, raw.allowlist.value);
      forall j | 0 <= j < i
        ensures !SamePair(raws[j], raws[i])
      {
        SamePairSameKey(raws[j], raws[i]);
      }
    }
  }

  ghost predicate Unshadowed(states: seq<string>)
  {
    forall s, t :: s in states && t in states ==> !Shadows(s, t)
  }

  lemma UnshadowedKeys(states: seq<string>, a: RawTransition, b: RawTransition)
    requires Unshadowed(states) && Readable(a) && Readable(b) && a.from.value in states && b.from.value in states
    ensures KeyOf(a) == KeyOf(b) <==> SamePair(a, b)
  {
    var s, t := a.from.value, b.from.value;
    if KeyOf(a) == KeyOf(b) {
      if |s| == |t| {
        SameLength(s, a.on.value, t, b.on.value);
      } else {
        assert !Shadows(s, t) && !Shadows(t, s);
        if |s| < |t| {
          CollideIff(s, t);
          assert Collide(s, a.on.value, t, b.on.value);
        } else {
          CollideIff(t, s);
          assert Collide(t, b.on.value, s, a.on.value);
        }
      }
    }
  }

  lemma UnshadowedAccepts(raw: RawSpec)
    requires PairClean(raw) && Unshadowed(raw.states.value)
    ensures Clean(raw)
  {
    var raws, states := raw.transitions.value, raw.states.value;
    forall i | 0 <= i < |raws|
      ensures CleanAt(raws, i, states, raw.allowlist.value)
    {
      assert PairCleanAt(raws, i, states, raw.allowlist.value);
      forall j | 0 <= j < i
        ensures KeyOf(raws[j]) != KeyOf(raws[i])
      {
        assert PairCleanAt(raws, j, states, raw.allowlist.value);
        UnshadowedKeys(states, raws[j], raws[i]);
      }
    }
  }

  function Step(from: string, on: string, to: string): RawTransition
  {
    Fields(Some(from), Some(on), Some(to), Absent, Absent, Absent, Absent)
  }

  /** Two steps with different pairs and one key. */
  lemma ShadowedRefuses(states: seq<string>, s: string, on: string, t: string, on': string)
    requires s in states && t in states && s != "" && t != "" && s != t && Collide(s, on, t, on')
    ensures var raws := [Step(s, on, s), Step(t, on', s)];
            && PairClean(Plain(states, s, raws)) && !Clean(Plain(states, s, raws))
            && forall code :: Deserves(raws, 1, code, states, []) <==> code == DuplicateTransition
  {
    var raws := [Step(s, on, s), Step(t, on', s)];
    assert raws[0] == Step(s, on, s) && raws[1] == Step(t, on', s);
    assert KeyOf(raws[0]) == KeyOf(raws[1]);
    assert KeyMet(raws, 1, KeyOf(raws[1]).value);
    assert !CleanAt(raws, 1, states, []);
  }

  /**
   * Exactly when the duplicate check does what it is meant to: every specification over these states that is in order
   * is accepted if and only if no state shadows another.
   */
  lemma AcceptsAllIff(states: seq<string>)
    ensures (forall raw: RawSpec :: raw.states == Some(states) && PairClean(raw) ==> Clean(raw)) <==> Unshadowed(states)
  {
    if Unshadowed(states) {
      forall raw: RawSpec | raw.states == Some(states) && PairClean(raw)
        ensures Clean(raw)
      {
        UnshadowedAccepts(raw);
      }
    } else {
      var s, t :| s in states && t in states && Shadows(s, t);
      var on, on' := ShadowCollides(s, t);
      ShadowedRefuses(states, s, on, t, on');
    }
  }

  /** Two states, two different pairs, refused for a duplicate and for nothing else. */
  lemma FalseDuplicate()
    ensures var states, raws := ["a", "a::b"], [Step("a", "b::c", "a"), Step("a::b", "c", "a")];
            && PairClean(Plain(states, "a", raws)) && !Clean(Plain(states, "a", raws))
            && forall code :: Deserves(raws, 1, code, states, []) <==> code == DuplicateTransition
  {
    var states := ["a", "a::b"];
    assert states[0] == "a" && states[1] == "a::b";
    assert Key("a", "b::c") == "a::b::c" == Key("a::b", "c");
    ShadowedRefuses(states, "a", "b::c", "a::b", "c");
  }
}
