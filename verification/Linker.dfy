/** The v12 linker: function bodies become one blob, call placeholders become byte offsets and
    parameter placeholders become stack positions. */
module Linker {
  import opened Arith
  import opened Bytes

  const STOP: byte := 0x00
  const FUNC_RETURN: byte := 0xf3
  const SDUP1: byte := 0xd0

  /** `calls` leave two bytes for an offset; `refs` leave one byte for a SDUP. Positions count
      from the end of the ALLOCATE prefix. */
  datatype CallRef = CallRef(pos: nat, func: nat)
  datatype ParamRef = ParamRef(pos: nat, param: int, depth: int)
  datatype Body = Body(code: seq<byte>, prefix: nat, calls: seq<CallRef>, refs: seq<ParamRef>, params: nat)

  datatype LinkError = SelfCall | NoSuchFunction(func: nat) | StackTooDeep(pos: int)
  datatype Linked = Linked(code: seq<byte>) | Failed(error: LinkError)

  /** Where every function starts; main, called from nowhere, has no entry. */
  type Offsets = map<nat, nat>

  // ----- patching -----

  function PutCall(code: seq<byte>, at: nat, offset: nat): seq<byte>
    requires at + 1 < |code|
  {
    code[at := (offset / 256) % 256][at + 1 := offset % 256]
  }

  function PatchCalls(code: seq<byte>, calls: seq<CallRef>, offsets: Offsets, shift: nat, mainIndex: int): Linked
    requires forall c | c in calls :: c.pos + shift + 1 < |code|
    decreases calls
  {
    if calls == [] then Linked(code)
    else if calls[0].func !in offsets then
      Failed(if calls[0].func == mainIndex then SelfCall else NoSuchFunction(calls[0].func))
    else PatchCalls(PutCall(code, calls[0].pos + shift, offsets[calls[0].func]), calls[1..], offsets, shift, mainIndex)
  }

  /** How far below the top of the stack a parameter is; `frame` counts the frame-pointer word. */
  function StackPos(r: ParamRef, params: nat, frame: nat): int {
    r.depth + frame + params - r.param
  }

  function Sdup(n: int): byte
    requires 1 <= n <= 16
  {
    SDUP1 as int + n - 1
  }

  function PatchRefs(code: seq<byte>, refs: seq<ParamRef>, params: nat, frame: nat, shift: nat): Linked
    requires forall r | r in refs :: r.pos + shift < |code|
    decreases refs
  {
    if refs == [] then Linked(code)
    else
      var n := StackPos(refs[0], params, frame);
      if n < 1 || n > 16 then Failed(StackTooDeep(n))
      else PatchRefs(code[refs[0].pos + shift := Sdup(n)], refs[1..], params, frame, shift)
  }

  /** Placeholders lie inside the body. */
  predicate Fits(b: Body) {
    && (forall c | c in b.calls :: c.pos + b.prefix + 1 < |b.code|)
    && (forall r | r in b.refs :: r.pos + b.prefix < |b.code|)
  }

  function Patch(b: Body, offsets: Offsets, frame: nat, mainIndex: int): Linked
    requires Fits(b)
  {
    match PatchCalls(b.code, b.calls, offsets, b.prefix, mainIndex)
    case Failed(e) => Failed(e)
    case Linked(code) =>
      PatchCallsLength(b.code, b.calls, offsets, b.prefix, mainIndex);
      PatchRefs(code, b.refs, b.params, frame, b.prefix)
  }

  lemma {:induction false} PatchCallsLength(code: seq<byte>, calls: seq<CallRef>, offsets: Offsets, shift: nat, mainIndex: int)
    requires forall c | c in calls :: c.pos + shift + 1 < |code|
    ensures var r := PatchCalls(code, calls, offsets, shift, mainIndex); r.Linked? ==> |r.code| == |code|
    decreases calls
  {
    if calls != [] && calls[0].func in offsets {
      PatchCallsLength(PutCall(code, calls[0].pos + shift, offsets[calls[0].func]), calls[1..], offsets, shift, mainIndex);
    }
  }

  method PatchCallsInPlace(bc: array<byte>, calls: seq<CallRef>, offsets: Offsets, shift: nat, mainIndex: int)
    returns (error: Option<LinkError>)
    requires forall c | c in calls :: c.pos + shift + 1 < bc.Length
    modifies bc
    ensures match PatchCalls(old(bc[..]), calls, offsets, shift, mainIndex)
            case Linked(code) => error == None && bc[..] == code
            case Failed(e) => error == Some(e)
  {
    ghost var want := PatchCalls(bc[..], calls, offsets, shift, mainIndex);
    var i := 0;
    assert calls[0..] == calls;
    while i < |calls|
      invariant 0 <= i <= |calls|
      invariant forall c | c in calls[i..] :: c.pos + shift + 1 < bc.Length
      invariant want == PatchCalls(bc[..], calls[i..], offsets, shift, mainIndex)
    {
      var c := calls[i];
      assert calls[i..][0] == c && calls[i..][1..] == calls[i + 1..];
      if c.func !in offsets {
        return Some(if c.func == mainIndex then SelfCall else NoSuchFunction(c.func));
      }
      ghost var was := bc[..];
      var offset := offsets[c.func];
      bc[c.pos + shift] := (offset / 256) % 256;
      bc[c.pos + shift + 1] := offset % 256;
      assert bc[..] == PutCall(was, c.pos + shift, offset);
      i := i + 1;
    }
    return None;
  }

  method PatchRefsInPlace(bc: array<byte>, refs: seq<ParamRef>, params: nat, frame: nat, shift: nat)
    returns (error: Option<LinkError>)
    requires forall r | r in refs :: r.pos + shift < bc.Length
    modifies bc
    ensures match PatchRefs(old(bc[..]), refs, params, frame, shift)
            case Linked(code) => error == None && bc[..] == code
            case Failed(e) => error == Some(e)
  {
    ghost var want := PatchRefs(bc[..], refs, params, frame, shift);
    var i := 0;
    assert refs[0..] == refs;
    while i < |refs|
      invariant 0 <= i <= |refs|
      invariant forall r | r in refs[i..] :: r.pos + shift < bc.Length
      invariant want == PatchRefs(bc[..], refs[i..], params, frame, shift)
    {
      var r := refs[i];
      assert refs[i..][0] == r && refs[i..][1..] == refs[i + 1..];
      var n := StackPos(r, params, frame);
      if n < 1 || n > 16 {
        return Some(StackTooDeep(n));
      }
      ghost var was := bc[..];
      bc[r.pos + shift] := Sdup(n);
      assert bc[..] == was[r.pos + shift := Sdup(n)];
      i := i + 1;
    }
    return None;
  }

  // ----- layout -----

  /** Helpers one after another, each closed by FUNC_RETURN. */
  function Joined(bodies: seq<seq<byte>>): seq<byte> {
    if bodies == [] then [] else bodies[0] + [FUNC_RETURN] + Joined(bodies[1..])
  }

  function Sizes(bodies: seq<Body>): nat {
    if bodies == [] then 0 else |bodies[0].code| + 1 + Sizes(bodies[1..])
  }

  /** Where helper `i` starts when the helpers start at `base`. */
  function StartOf(helpers: seq<Body>, i: nat, base: nat): nat
    requires i <= |helpers|
  {
    if i == 0 then base else StartOf(helpers, i - 1, base) + |helpers[i - 1].code| + 1
  }

  function OffsetsOf(helpers: seq<Body>, n: nat, base: nat): Offsets
    requires n <= |helpers|
  {
    if n == 0 then map[] else OffsetsOf(helpers, n - 1, base)[n - 1 := StartOf(helpers, n - 1, base)]
  }

  lemma {:induction false} OffsetsKnown(helpers: seq<Body>, n: nat, base: nat, i: nat)
    requires n <= |helpers|
    ensures i in OffsetsOf(helpers, n, base) <==> i < n
    ensures i < n ==> OffsetsOf(helpers, n, base)[i] == StartOf(helpers, i, base)
  {
    if n > 0 {
      OffsetsKnown(helpers, n - 1, base, i);
    }
  }

  function PatchHelpers(helpers: seq<Body>, offsets: Offsets): (r: (Option<LinkError>, seq<seq<byte>>))
    requires forall h | h in helpers :: Fits(h)
  {
    if helpers == [] then (None, [])
    else
      match Patch(helpers[0], offsets, 1, -1)
      case Failed(e) => (Some(e), [])
      case Linked(code) =>
        var (e, rest) := PatchHelpers(helpers[1..], offsets);
        (e, [code] + rest)
  }

  /** The program: what pushes the arguments, then main, then the helpers. A program that is
      main alone, with nothing pushed, is main's bytes and nothing else. */
  function Link(prologue: seq<byte>, main: Body, helpers: seq<Body>, withArgs: bool): Linked
    requires Fits(main) && forall h | h in helpers :: Fits(h)
  {
    if !withArgs && helpers == [] then Patch(main, map[], 0, |helpers|)
    else
      var base := (if withArgs then |prologue| else 0) + |main.code| + 1;
      var offsets := OffsetsOf(helpers, |helpers|, base);
      match Patch(main, offsets, 0, |helpers|)
      case Failed(e) => Failed(e)
      case Linked(code) =>
        match PatchHelpers(helpers, offsets)
        case (Some(e), _) => Failed(e)
        case (None, bodies) => Linked((if withArgs then prologue else []) + code + [STOP] + Joined(bodies))
  }

  // ----- linking in place -----

  method PatchBody(b: Body, offsets: Offsets, frame: nat, mainIndex: int) returns (r: Linked)
    requires Fits(b)
    ensures r == Patch(b, offsets, frame, mainIndex)
  {
    var bc := new byte[|b.code|](i requires 0 <= i < |b.code| => b.code[i]);
    assert bc[..] == b.code;
    PatchCallsLength(b.code, b.calls, offsets, b.prefix, mainIndex);
    var e := PatchCallsInPlace(bc, b.calls, offsets, b.prefix, mainIndex);
    if e.Some? {
      return Failed(e.value);
    }
    e := PatchRefsInPlace(bc, b.refs, b.params, frame, b.prefix);
    if e.Some? {
      return Failed(e.value);
    }
    return Linked(bc[..]);
  }

  lemma {:induction false} PatchHelpersStep(helpers: seq<Body>, i: nat, offsets: Offsets, done: seq<seq<byte>>)
    requires (forall h | h in helpers :: Fits(h)) && i < |helpers|
    requires var r := PatchHelpers(helpers, offsets);
             var rest := PatchHelpers(helpers[i..], offsets);
             r.0 == rest.0 && (rest.0 == None ==> r.1 == done + rest.1)
    ensures var r := PatchHelpers(helpers, offsets);
            match Patch(helpers[i], offsets, 1, -1)
            case Failed(e) => r.0 == Some(e)
            case Linked(code) =>
              var rest := PatchHelpers(helpers[i + 1..], offsets);
              r.0 == rest.0 && (rest.0 == None ==> r.1 == done + [code] + rest.1)
  {
    assert helpers[i..][0] == helpers[i] && helpers[i..][1..] == helpers[i + 1..];
    var p := Patch(helpers[i], offsets, 1, -1);
    if p.Linked? {
      var rest := PatchHelpers(helpers[i + 1..], offsets);
      assert done + ([p.code] + rest.1) == done + [p.code] + rest.1;
    }
  }

  lemma {:induction false} JoinedAppend(bodies: seq<seq<byte>>, last: seq<byte>)
    ensures Joined(bodies + [last]) == Joined(bodies) + last + [FUNC_RETURN]
  {
    if bodies == [] {
      assert [last][1..] == [] && [] + [last] == [last];
      assert Joined([last]) == last + [FUNC_RETURN] + Joined([]);
    } else {
      assert (bodies + [last])[1..] == bodies[1..] + [last];
      JoinedAppend(bodies[1..], last);
    }
  }

  /** Offsets first, then every body patched in its own buffer, then one blob. */
  method Assemble(prologue: seq<byte>, main: Body, helpers: seq<Body>, withArgs: bool) returns (r: Linked)
    requires Fits(main) && forall h | h in helpers :: Fits(h)
    ensures r == Link(prologue, main, helpers, withArgs)
  {
    if !withArgs && helpers == [] {
      r := PatchBody(main, map[], 0, |helpers|);
      return;
    }
    var offsets: Offsets := map[];
    var off := (if withArgs then |prologue| else 0) + |main.code| + 1;
    ghost var base := off;
    var i := 0;
    while i < |helpers|
      invariant 0 <= i <= |helpers|
      invariant offsets == OffsetsOf(helpers, i, base) && off == StartOf(helpers, i, base)
    {
      offsets := offsets[i := off];
      off := off + |helpers[i].code| + 1;
      i := i + 1;
    }
    var m := PatchBody(main, offsets, 0, |helpers|);
    if m.Failed? {
      return m;
    }
    var blob := (if withArgs then prologue else []) + m.code + [STOP];
    var tail := AppendHelpers(helpers, offsets);
    if tail.Failed? {
      return tail;
    }
    return Linked(blob + tail.code);
  }

  /** Each helper patched and appended in turn. */
  method AppendHelpers(helpers: seq<Body>, offsets: Offsets) returns (r: Linked)
    requires forall h | h in helpers :: Fits(h)
    ensures match PatchHelpers(helpers, offsets)
            case (Some(e), _) => r == Failed(e)
            case (None, bodies) => r == Linked(Joined(bodies))
  {
    ghost var all := PatchHelpers(helpers, offsets);
    var blob: seq<byte> := [];
    ghost var bodies: seq<seq<byte>> := [];
    var i := 0;
    assert helpers[0..] == helpers;
    while i < |helpers|
      invariant 0 <= i <= |helpers|
      invariant blob == Joined(bodies)
      invariant var rest := PatchHelpers(helpers[i..], offsets);
                all.0 == rest.0 && (rest.0 == None ==> all.1 == bodies + rest.1)
    {
      var h := PatchBody(helpers[i], offsets, 1, -1);
      PatchHelpersStep(helpers, i, offsets, bodies);
      if h.Failed? {
        return h;
      }
      JoinedAppend(bodies, h.code);
      blob := blob + h.code + [FUNC_RETURN];
      bodies := bodies + [h.code];
      i := i + 1;
    }
    assert helpers[i..] == [] && bodies + [] == bodies;
    return Linked(blob);
  }

  // ----- what a patched body holds -----

  function CallBytes(calls: seq<CallRef>, shift: nat): set<nat> {
    if calls == [] then {} else {calls[0].pos + shift, calls[0].pos + shift + 1} + CallBytes(calls[1..], shift)
  }

  function RefBytes(refs: seq<ParamRef>, shift: nat): set<nat> {
    if refs == [] then {} else {refs[0].pos + shift} + RefBytes(refs[1..], shift)
  }

  /** No two placeholders share a byte. */
  predicate CallsApart(calls: seq<CallRef>, shift: nat) {
    calls == [] ||
    ({calls[0].pos + shift, calls[0].pos + shift + 1} !! CallBytes(calls[1..], shift) && CallsApart(calls[1..], shift))
  }

  predicate RefsApart(refs: seq<ParamRef>, shift: nat) {
    refs == [] || (refs[0].pos + shift !in RefBytes(refs[1..], shift) && RefsApart(refs[1..], shift))
  }

  predicate Apart(b: Body) {
    && CallsApart(b.calls, b.prefix) && RefsApart(b.refs, b.prefix)
    && CallBytes(b.calls, b.prefix) !! RefBytes(b.refs, b.prefix)
  }

  /** The operand at a call is its callee's offset, as far as two bytes go. */
  predicate Targets(code: seq<byte>, c: CallRef, offsets: Offsets, shift: nat) {
    && c.func in offsets && c.pos + shift + 1 < |code|
    && code[c.pos + shift] == (offsets[c.func] / 256) % 256
    && code[c.pos + shift + 1] == offsets[c.func] % 256
  }

  lemma {:induction false} CallInside(calls: seq<CallRef>, c: CallRef, shift: nat)
    requires c in calls
    ensures {c.pos + shift, c.pos + shift + 1} <= CallBytes(calls, shift)
  {
    if c != calls[0] {
      CallInside(calls[1..], c, shift);
    }
  }

  lemma {:induction false} CallsPatched(code: seq<byte>, calls: seq<CallRef>, offsets: Offsets, shift: nat, mainIndex: int)
    requires forall c | c in calls :: c.pos + shift + 1 < |code|
    requires CallsApart(calls, shift) && PatchCalls(code, calls, offsets, shift, mainIndex).Linked?
    ensures var r := PatchCalls(code, calls, offsets, shift, mainIndex).code;
            && |r| == |code|
            && (forall c | c in calls :: Targets(r, c, offsets, shift))
            && (forall j | 0 <= j < |code| && j !in CallBytes(calls, shift) :: r[j] == code[j])
    decreases calls
  {
    if calls != [] {
      var at := calls[0].pos + shift;
      var code1 := PutCall(code, at, offsets[calls[0].func]);
      CallsPatched(code1, calls[1..], offsets, shift, mainIndex);
      var r := PatchCalls(code, calls, offsets, shift, mainIndex).code;
      assert r[at] == code1[at] && r[at + 1] == code1[at + 1];
      forall c | c in calls
        ensures Targets(r, c, offsets, shift)
      {
        if c != calls[0] {
          assert c in calls[1..];
        }
      }
    }
  }

  /** The byte at a parameter read is the SDUP for its depth. */
  predicate Reads(code: seq<byte>, r: ParamRef, params: nat, frame: nat, shift: nat) {
    && r.pos + shift < |code| && 1 <= StackPos(r, params, frame) <= 16
    && code[r.pos + shift] == Sdup(StackPos(r, params, frame))
  }

  lemma {:induction false} RefsPatched(code: seq<byte>, refs: seq<ParamRef>, params: nat, frame: nat, shift: nat)
    requires forall r | r in refs :: r.pos + shift < |code|
    requires RefsApart(refs, shift) && PatchRefs(code, refs, params, frame, shift).Linked?
    ensures var out := PatchRefs(code, refs, params, frame, shift).code;
            && |out| == |code|
            && (forall r | r in refs :: Reads(out, r, params, frame, shift))
            && (forall j | 0 <= j < |code| && j !in RefBytes(refs, shift) :: out[j] == code[j])
    decreases refs
  {
    if refs != [] {
      var at := refs[0].pos + shift;
      var code1 := code[at := Sdup(StackPos(refs[0], params, frame))];
      RefsPatched(code1, refs[1..], params, frame, shift);
      var out := PatchRefs(code, refs, params, frame, shift).code;
      assert out[at] == code1[at];
      forall r | r in refs
        ensures Reads(out, r, params, frame, shift)
      {
        if r != refs[0] {
          assert r in refs[1..];
        }
      }
    }
  }

  /** A body with every placeholder resolved and every other byte its own. */
  ghost predicate Resolved(b: Body, code: seq<byte>, offsets: Offsets, frame: nat) {
    && |code| == |b.code|
    && (forall c | c in b.calls :: Targets(code, c, offsets, b.prefix))
    && (forall r | r in b.refs :: Reads(code, r, b.params, frame, b.prefix))
    && (forall j | 0 <= j < |code| && j !in CallBytes(b.calls, b.prefix) && j !in RefBytes(b.refs, b.prefix) ::
          code[j] == b.code[j])
  }

  lemma PatchResolves(b: Body, offsets: Offsets, frame: nat, mainIndex: int)
    requires Fits(b) && Apart(b) && Patch(b, offsets, frame, mainIndex).Linked?
    ensures Resolved(b, Patch(b, offsets, frame, mainIndex).code, offsets, frame)
  {
    var called := PatchCalls(b.code, b.calls, offsets, b.prefix, mainIndex).code;
    CallsPatched(b.code, b.calls, offsets, b.prefix, mainIndex);
    RefsPatched(called, b.refs, b.params, frame, b.prefix);
    var code := Patch(b, offsets, frame, mainIndex).code;
    forall c | c in b.calls
      ensures Targets(code, c, offsets, b.prefix)
    {
      CallInside(b.calls, c, b.prefix);
    }
  }

  // ----- the blob -----

  ghost predicate PlacedAt(blob: seq<byte>, at: nat, b: Body, offsets: Offsets, frame: nat) {
    at + |b.code| <= |blob| && Resolved(b, blob[at..at + |b.code|], offsets, frame)
  }

  lemma {:induction false} HelpersPatched(helpers: seq<Body>, offsets: Offsets, i: nat)
    requires (forall h | h in helpers :: Fits(h)) && PatchHelpers(helpers, offsets).0 == None && i < |helpers|
    ensures var bodies := PatchHelpers(helpers, offsets).1;
            && |bodies| == |helpers|
            && Patch(helpers[i], offsets, 1, -1) == Linked(bodies[i])
  {
    if i > 0 {
      HelpersPatched(helpers[1..], offsets, i - 1);
    } else if |helpers| > 1 {
      HelpersPatched(helpers[1..], offsets, 0);
    } else {
      assert helpers[1..] == [];
    }
  }

  /** Helper `i` sits at its offset, with FUNC_RETURN right behind it. */
  lemma {:induction false} JoinedAt(helpers: seq<Body>, bodies: seq<seq<byte>>, head: seq<byte>, i: nat)
    requires |bodies| == |helpers| && i < |helpers|
    requires forall k | 0 <= k < |helpers| :: |bodies[k]| == |helpers[k].code|
    ensures var at, blob := StartOf(helpers, i, |head|), head + Joined(bodies);
            && at + |bodies[i]| + 1 <= |blob|
            && blob[at..at + |bodies[i]|] == bodies[i]
            && blob[at + |bodies[i]|] == 0xf3
    decreases i
  {
    var rest := Joined(bodies[1..]);
    var head2 := head + bodies[0] + [FUNC_RETURN];
    assert head + Joined(bodies) == head2 + rest;
    if i == 0 {
      assert StartOf(helpers, 0, |head|) == |head|;
      assert (head2 + rest)[|head|..|head| + |bodies[0]|] == bodies[0];
    } else {
      JoinedAt(helpers[1..], bodies[1..], head2, i - 1);
      StartShift(helpers, i, |head|);
    }
  }

  lemma {:induction false} StartShift(helpers: seq<Body>, i: nat, base: nat)
    requires 0 < i <= |helpers|
    ensures StartOf(helpers, i, base) == StartOf(helpers[1..], i - 1, base + |helpers[0].code| + 1)
  {
    if i > 1 {
      StartShift(helpers, i - 1, base);
      assert helpers[1..][i - 2] == helpers[i - 1];
    }
  }

  function BaseOf(prologue: seq<byte>, main: Body, withArgs: bool): nat {
    (if withArgs then |prologue| else 0) + |main.code| + 1
  }

  /** Everything is where every call says it is: main after what pushes its arguments, each
      helper at the offset its callers use, all placeholders resolved and no other byte changed. */
  lemma LinkedCorrectly(prologue: seq<byte>, main: Body, helpers: seq<Body>, withArgs: bool)
    requires Fits(main) && Apart(main) && forall h | h in helpers :: Fits(h) && Apart(h)
    requires Link(prologue, main, helpers, withArgs).Linked?
    ensures var blob := Link(prologue, main, helpers, withArgs).code;
            var base := BaseOf(prologue, main, withArgs);
            var offsets := OffsetsOf(helpers, |helpers|, base);
            && PlacedAt(blob, base - |main.code| - 1, main, offsets, 0)
            && (withArgs ==> blob[..|prologue|] == prologue)
            && (withArgs || helpers != [] ==> |blob| >= base && blob[base - 1] == 0x00)
            && HelpersAt(blob, helpers, base, offsets)
  {
    var base := BaseOf(prologue, main, withArgs);
    var offsets := OffsetsOf(helpers, |helpers|, base);
    if !withArgs && helpers == [] {
      AloneLinked(prologue, main);
    } else {
      var pushed := if withArgs then prologue else [];
      assert base - |main.code| - 1 == |pushed| && base == |pushed| + |main.code| + 1;
      assert Link(prologue, main, helpers, withArgs).code ==
             pushed + Patch(main, offsets, 0, |helpers|).code + [STOP] + Joined(PatchHelpers(helpers, offsets).1);
      TogetherLinked(pushed, main, helpers, offsets);
    }
  }

  lemma TogetherLinked(pushed: seq<byte>, main: Body, helpers: seq<Body>, offsets: Offsets)
    requires Fits(main) && Apart(main) && forall h | h in helpers :: Fits(h) && Apart(h)
    requires Patch(main, offsets, 0, |helpers|).Linked? && PatchHelpers(helpers, offsets).0 == None
    ensures var code, bodies := Patch(main, offsets, 0, |helpers|).code, PatchHelpers(helpers, offsets).1;
            var blob, base := pushed + code + [STOP] + Joined(bodies), |pushed| + |main.code| + 1;
            && PlacedAt(blob, |pushed|, main, offsets, 0)
            && blob[..|pushed|] == pushed && |blob| >= base && blob[base - 1] == 0x00
            && HelpersAt(blob, helpers, base, offsets)
  {
    PatchResolves(main, offsets, 0, |helpers|);
    var code, bodies := Patch(main, offsets, 0, |helpers|).code, PatchHelpers(helpers, offsets).1;
    BlobParts(pushed, main, code, helpers, bodies, offsets);
  }

  lemma AloneLinked(prologue: seq<byte>, main: Body)
    requires Fits(main) && Apart(main) && Link(prologue, main, [], false).Linked?
    ensures var blob, base := Link(prologue, main, [], false).code, BaseOf(prologue, main, false);
            base == |main.code| + 1 && PlacedAt(blob, 0, main, OffsetsOf([], 0, base), 0)
  {
    var offsets := OffsetsOf([], 0, BaseOf(prologue, main, false));
    PatchResolves(main, offsets, 0, 0);
    var code := Patch(main, offsets, 0, 0).code;
    assert code[0..|main.code|] == code;
  }

  lemma BlobParts(pushed: seq<byte>, main: Body, code: seq<byte>, helpers: seq<Body>, bodies: seq<seq<byte>>, offsets: Offsets)
    requires (forall h | h in helpers :: Fits(h) && Apart(h)) && PatchHelpers(helpers, offsets) == (None, bodies)
    requires Resolved(main, code, offsets, 0)
    ensures var blob, base := pushed + code + [STOP] + Joined(bodies), |pushed| + |main.code| + 1;
            && PlacedAt(blob, |pushed|, main, offsets, 0)
            && blob[..|pushed|] == pushed && |blob| >= base && blob[base - 1] == 0x00
            && HelpersAt(blob, helpers, base, offsets)
  {
    MainPlaced(pushed, main, code, Joined(bodies), offsets);
    HelpersPlaced(helpers, bodies, pushed + code + [STOP], offsets);
  }

  lemma MainPlaced(pushed: seq<byte>, main: Body, code: seq<byte>, rest: seq<byte>, offsets: Offsets)
    requires Resolved(main, code, offsets, 0)
    ensures var blob := pushed + code + [STOP] + rest;
            && PlacedAt(blob, |pushed|, main, offsets, 0)
            && blob[..|pushed|] == pushed && blob[|pushed| + |main.code|] == 0x00
  {
    var blob := pushed + code + [STOP] + rest;
    assert blob[|pushed|..|pushed| + |code|] == code;
  }

  lemma HelpersPlaced(helpers: seq<Body>, bodies: seq<seq<byte>>, head: seq<byte>, offsets: Offsets)
    requires (forall h | h in helpers :: Fits(h) && Apart(h)) && PatchHelpers(helpers, offsets) == (None, bodies)
    ensures HelpersAt(head + Joined(bodies), helpers, |head|, offsets)
  {
    forall i | 0 <= i < |helpers|
      ensures HelperAt(head + Joined(bodies), helpers, i, |head|, offsets)
    {
      HelperPlaced(helpers, bodies, head, offsets, i);
    }
  }

  ghost predicate HelpersAt(blob: seq<byte>, helpers: seq<Body>, base: nat, offsets: Offsets) {
    forall i | 0 <= i < |helpers| :: HelperAt(blob, helpers, i, base, offsets)
  }

  /** Helper `i` is at its offset, resolved, with FUNC_RETURN right behind it. */
  ghost predicate HelperAt(blob: seq<byte>, helpers: seq<Body>, i: nat, base: nat, offsets: Offsets)
    requires i < |helpers|
  {
    var at := StartOf(helpers, i, base);
    && PlacedAt(blob, at, helpers[i], offsets, 1)
    && at + |helpers[i].code| < |blob| && blob[at + |helpers[i].code|] == 0xf3
  }

  lemma HelperLengths(helpers: seq<Body>, bodies: seq<seq<byte>>, offsets: Offsets)
    requires (forall h | h in helpers :: Fits(h) && Apart(h)) && PatchHelpers(helpers, offsets) == (None, bodies)
    ensures |bodies| == |helpers| && forall k | 0 <= k < |helpers| :: |bodies[k]| == |helpers[k].code|
  {
    PatchedCount(helpers, offsets);
    forall k | 0 <= k < |helpers|
      ensures |bodies[k]| == |helpers[k].code|
    {
      HelpersPatched(helpers, offsets, k);
      PatchResolves(helpers[k], offsets, 1, -1);
    }
  }

  lemma {:induction false} PatchedCount(helpers: seq<Body>, offsets: Offsets)
    requires (forall h | h in helpers :: Fits(h)) && PatchHelpers(helpers, offsets).0 == None
    ensures |PatchHelpers(helpers, offsets).1| == |helpers|
  {
    if helpers != [] {
      HelpersPatched(helpers, offsets, 0);
    }
  }

  lemma HelperPlaced(helpers: seq<Body>, bodies: seq<seq<byte>>, head: seq<byte>, offsets: Offsets, i: nat)
    requires (forall h | h in helpers :: Fits(h) && Apart(h)) && i < |helpers|
    requires PatchHelpers(helpers, offsets) == (None, bodies)
    ensures HelperAt(head + Joined(bodies), helpers, i, |head|, offsets)
  {
    HelperLengths(helpers, bodies, offsets);
    JoinedAt(helpers, bodies, head, i);
    OnePlaced(helpers, bodies, head + Joined(bodies), offsets, i, |head|);
  }

  lemma OnePlaced(helpers: seq<Body>, bodies: seq<seq<byte>>, blob: seq<byte>, offsets: Offsets, i: nat, base: nat)
    requires (forall h | h in helpers :: Fits(h) && Apart(h)) && i < |helpers|
    requires PatchHelpers(helpers, offsets) == (None, bodies) && |bodies| == |helpers|
    requires var at := StartOf(helpers, i, base);
             && |bodies[i]| == |helpers[i].code| && at + |bodies[i]| < |blob|
             && blob[at..at + |bodies[i]|] == bodies[i] && blob[at + |bodies[i]|] == 0xf3
    ensures HelperAt(blob, helpers, i, base, offsets)
  {
    HelpersPatched(helpers, offsets, i);
    PatchResolves(helpers[i], offsets, 1, -1);
  }

  /** A call's operand is exactly where its callee starts, as long as that is below 2^16 and
      only then. */
  lemma OperandExactBelow64K(code: seq<byte>, c: CallRef, helpers: seq<Body>, base: nat, shift: nat)
    requires Targets(code, c, OffsetsOf(helpers, |helpers|, base), shift)
    ensures c.func < |helpers|
    ensures var at, start := c.pos + shift, StartOf(helpers, c.func, base);
            && FromBE(code[at..at + 2]) == start % 0x10000
            && (FromBE(code[at..at + 2]) == start <==> start < 0x10000)
  {
    OffsetsKnown(helpers, |helpers|, base, c.func);
    var at, start := c.pos + shift, StartOf(helpers, c.func, base);
    assert code[at..at + 2] == [code[at], code[at + 1]];
    TwoBytes(code[at], code[at + 1]);
    assert start % 0x10000 == 256 * ((start / 256) % 256) + start % 256;
  }

  /** On the running machine: `depth` cells above the frame, the frame word if the function
      was called, and the parameters below, the first deepest. What a patched body has at a
      parameter read is the SDUP that picks that parameter. */
  lemma SdupPicksParameter<T>(b: Body, offsets: Offsets, mainIndex: int, r: ParamRef, below: seq<T>, params: seq<T>,
                              frame: seq<T>, locals: seq<T>)
    requires Fits(b) && Apart(b) && Patch(b, offsets, |frame|, mainIndex).Linked? && r in b.refs
    requires |params| == b.params && 0 <= r.param < |params| && r.depth == |locals|
    ensures var stack := below + params + frame + locals;
            var code, at := Patch(b, offsets, |frame|, mainIndex).code, r.pos + b.prefix;
            && at < |code|
            && var n := code[at] as int - 0xcf;
               1 <= n <= 16 && n <= |stack| && stack[|stack| - n] == params[r.param]
  {
    PatchResolves(b, offsets, |frame|, mainIndex);
    var n := StackPos(r, |params|, |frame|);
    var stack, code := below + params + frame + locals, Patch(b, offsets, |frame|, mainIndex).code;
    assert Reads(code, r, b.params, |frame|, b.prefix);
    assert stack[|stack| - n] == params[r.param];
  }
}
