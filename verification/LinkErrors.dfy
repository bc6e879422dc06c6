/** When linking succeeds, and which placeholder it stumbles over otherwise. */
module LinkErrors {
  import opened Arith
  import opened Bytes
  import opened Linker

  // ----- one body -----

  /** A parameter is within reach of SDUP1 to SDUP16: `frame` is 1 in a called function. */
  predicate InReach(r: ParamRef, params: nat, frame: nat) {
    1 <= r.depth + frame + params - r.param <= 16
  }

  ghost predicate BadCall(calls: seq<CallRef>, offsets: Offsets, i: int) {
    0 <= i < |calls| && calls[i].func !in offsets && forall j | 0 <= j < i :: calls[j].func in offsets
  }

  ghost predicate BadRef(refs: seq<ParamRef>, params: nat, frame: nat, i: int) {
    0 <= i < |refs| && !InReach(refs[i], params, frame) && forall j | 0 <= j < i :: InReach(refs[j], params, frame)
  }

  lemma {:induction false} CallsFail(code: seq<byte>, calls: seq<CallRef>, offsets: Offsets, shift: nat, mainIndex: int)
    returns (i: int)
    requires forall c | c in calls :: c.pos + shift + 1 < |code|
    ensures var r := PatchCalls(code, calls, offsets, shift, mainIndex);
            if r.Linked? then forall c | c in calls :: c.func in offsets
            else BadCall(calls, offsets, i)
                 && r.error == (if calls[i].func == mainIndex then SelfCall else NoSuchFunction(calls[i].func))
    decreases calls
  {
    i := 0;
    if calls != [] && calls[0].func in offsets {
      i := CallsFail(PutCall(code, calls[0].pos + shift, offsets[calls[0].func]), calls[1..], offsets, shift, mainIndex);
      i := i + 1;
      assert calls == [calls[0]] + calls[1..];
    }
  }

  lemma {:induction false} RefsFail(code: seq<byte>, refs: seq<ParamRef>, params: nat, frame: nat, shift: nat) returns (i: int)
    requires forall r | r in refs :: r.pos + shift < |code|
    ensures var p := PatchRefs(code, refs, params, frame, shift);
            if p.Linked? then forall r | r in refs :: InReach(r, params, frame)
            else BadRef(refs, params, frame, i) && p.error == StackTooDeep(refs[i].depth + frame + params - refs[i].param)
    decreases refs
  {
    i := 0;
    if refs != [] && InReach(refs[0], params, frame) {
      i := RefsFail(code[refs[0].pos + shift := Sdup(StackPos(refs[0], params, frame))], refs[1..], params, frame, shift);
      i := i + 1;
      assert refs == [refs[0]] + refs[1..];
    }
  }

  ghost predicate Patchable(b: Body, offsets: Offsets, frame: nat) {
    (forall c | c in b.calls :: c.func in offsets) && (forall r | r in b.refs :: InReach(r, b.params, frame))
  }

  /** The first unknown callee of a body, or if there is none its first parameter out of reach. */
  ghost predicate Stumbles(b: Body, offsets: Offsets, frame: nat, mainIndex: int, error: LinkError, i: int) {
    if exists c :: c in b.calls && c.func !in offsets then
      BadCall(b.calls, offsets, i)
      && error == (if b.calls[i].func == mainIndex then SelfCall else NoSuchFunction(b.calls[i].func))
    else
      BadRef(b.refs, b.params, frame, i) && error == StackTooDeep(b.refs[i].depth + frame + b.params - b.refs[i].param)
  }

  /** A body is patched exactly when its callees are known and its parameters within reach. */
  lemma PatchesExactly(b: Body, offsets: Offsets, frame: nat, mainIndex: int) returns (i: int)
    requires Fits(b)
    ensures var p := Patch(b, offsets, frame, mainIndex);
            && (p.Linked? <==> Patchable(b, offsets, frame))
            && (p.Failed? ==> Stumbles(b, offsets, frame, mainIndex, p.error, i))
  {
    i := CallsFail(b.code, b.calls, offsets, b.prefix, mainIndex);
    var called := PatchCalls(b.code, b.calls, offsets, b.prefix, mainIndex);
    if called.Linked? {
      PatchCallsLength(b.code, b.calls, offsets, b.prefix, mainIndex);
      i := RefsFail(called.code, b.refs, b.params, frame, b.prefix);
    } else {
      assert b.calls[i] in b.calls;
    }
  }

  // ----- the program -----

  /** Every call is of one of the `n` helpers, and every parameter within reach. */
  ghost predicate Sound(b: Body, n: nat, frame: nat) {
    (forall c | c in b.calls :: c.func < n) && (forall r | r in b.refs :: InReach(r, b.params, frame))
  }

  lemma SoundIsPatchable(b: Body, helpers: seq<Body>, base: nat, frame: nat)
    ensures Sound(b, |helpers|, frame) <==> Patchable(b, OffsetsOf(helpers, |helpers|, base), frame)
  {
    forall c | c in b.calls
      ensures c.func < |helpers| <==> c.func in OffsetsOf(helpers, |helpers|, base)
    {
      OffsetsKnown(helpers, |helpers|, base, c.func);
    }
  }

  lemma {:induction false} HelpersFail(helpers: seq<Body>, offsets: Offsets) returns (i: int)
    requires forall h | h in helpers :: Fits(h)
    ensures var r := PatchHelpers(helpers, offsets);
            if r.0 == None then forall j | 0 <= j < |helpers| :: Patch(helpers[j], offsets, 1, -1).Linked?
            else 0 <= i < |helpers| && Patch(helpers[i], offsets, 1, -1) == Failed(r.0.value)
                 && forall j | 0 <= j < i :: Patch(helpers[j], offsets, 1, -1).Linked?
  {
    i := 0;
    if helpers != [] && Patch(helpers[0], offsets, 1, -1).Linked? {
      assert forall h | h in helpers[1..] :: h in helpers;
      i := HelpersFail(helpers[1..], offsets);
      i := i + 1;
      assert forall j | 1 <= j < |helpers| :: helpers[j] == helpers[1..][j - 1];
    }
  }

  /** A program links exactly when every call in it is of a helper and every parameter read is
      within reach, one word nearer in main than in a helper; otherwise it reports what main
      stumbles over, or else the first helper that stumbles. */
  lemma LinksExactly(prologue: seq<byte>, main: Body, helpers: seq<Body>, withArgs: bool) returns (h: int, i: int)
    requires Fits(main) && forall b | b in helpers :: Fits(b)
    ensures var r, n := Link(prologue, main, helpers, withArgs), |helpers|;
            && (r.Linked? <==> Sound(main, n, 0) && forall k | 0 <= k < n :: Sound(helpers[k], n, 1))
            && (r.Failed? ==>
                  var offsets := OffsetsOf(helpers, n, BaseOf(prologue, main, withArgs));
                  if !Sound(main, n, 0) then Stumbles(main, offsets, 0, n, r.error, i)
                  else 0 <= h < n && !Sound(helpers[h], n, 1) && (forall k | 0 <= k < h :: Sound(helpers[k], n, 1))
                       && Stumbles(helpers[h], offsets, 1, -1, r.error, i))
  {
    var base := BaseOf(prologue, main, withArgs);
    var offsets := OffsetsOf(helpers, |helpers|, base);
    h := 0;
    i := PatchesExactly(main, offsets, 0, |helpers|);
    SoundIsPatchable(main, helpers, base, 0);
    forall k | 0 <= k < |helpers|
      ensures Sound(helpers[k], |helpers|, 1) <==> Patch(helpers[k], offsets, 1, -1).Linked?
    {
      var _ := PatchesExactly(helpers[k], offsets, 1, -1);
      SoundIsPatchable(helpers[k], helpers, base, 1);
    }
    if Patch(main, offsets, 0, |helpers|).Linked? {
      h := HelpersFail(helpers, offsets);
      if PatchHelpers(helpers, offsets).0.Some? {
        i := PatchesExactly(helpers[h], offsets, 1, -1);
      }
    }
  }
}
