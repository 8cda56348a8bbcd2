/**
 Identity encodings: invocation paths (domain/execution/coordinate.go) and the
 runtime identifiers of compiled nodes (application/engine/compiler.go).
 */
module Codec {
  import opened Wrappers
  import opened Text

  // ----- length-prefixed components -----

  /** One component of a runtime identifier: its length, a colon, its bytes. */
  function Component(s: string): string {
    Itoa(|s|) + ":" + s
  }

  /** The concatenation of the components of a runtime path. */
  function Components(path: seq<string>): string {
    if path == [] then "" else Components(path[..|path| - 1]) + Component(path[|path| - 1])
  }

  /** The colon that ends a length prefix is the first colon of the string. */
  lemma PrefixColon(s: string, pos: nat, n: nat)
    requires pos + |Itoa(n)| < |s| && s[pos..pos + |Itoa(n)|] == Itoa(n) && s[pos + |Itoa(n)|] == ':'
    ensures IndexFrom(s, ':', pos) == Some(pos + |Itoa(n)|)
  {
    var colon := pos + |Itoa(n)|;
    forall i | pos <= i < colon
      ensures s[i] != ':'
    {
      assert s[i] == s[pos..colon][i - pos];
    }
  }

  /** A component can be split off the front of any string in only one way. */
  lemma ComponentPrefixFree(a: string, x: string, b: string, y: string)
    requires Component(a) + x == Component(b) + y
    ensures a == b && x == y
  {
    var s := Component(a) + x;
    assert s == Itoa(|a|) + ":" + (a + x);
    assert s == Itoa(|b|) + ":" + (b + y);
    assert s[0..|Itoa(|a|)|] == Itoa(|a|);
    assert s[0..|Itoa(|b|)|] == Itoa(|b|);
    PrefixColon(s, 0, |a|);
    PrefixColon(s, 0, |b|);
    ItoaRoundTrip(|a|);
    ItoaRoundTrip(|b|);
    var k := |Itoa(|a|)| + 1;
    assert s[k..] == a + x;
    assert s[k..] == b + y;
    assert (a + x)[..|a|] == a && (b + y)[..|b|] == b;
    assert (a + x)[|a|..] == x && (b + y)[|b|..] == y;
  }

  lemma {:induction false} ComponentsCons(path: seq<string>)
    requires path != []
    ensures Components(path) == Component(path[0]) + Components(path[1..])
  {
    hide Component;
    if |path| == 1 {
      assert path[..0] == [] && path[1..] == [];
    } else {
      var init := path[..|path| - 1];
      ComponentsCons(init);
      assert init[1..] == path[1..][..|path| - 2];
      assert path[1..][|path| - 2] == path[|path| - 1];
    }
  }

  /** Component lists are uniquely decodable. */
  lemma {:induction false} ComponentsInjective(p: seq<string>, q: seq<string>)
    requires Components(p) == Components(q)
    ensures p == q
  {
    hide Itoa;
    if p == [] || q == [] {
      if p != [] { ComponentsCons(p); }
      if q != [] { ComponentsCons(q); }
    } else {
      ComponentsCons(p);
      ComponentsCons(q);
      ComponentPrefixFree(p[0], Components(p[1..]), q[0], Components(q[1..]));
      ComponentsInjective(p[1..], q[1..]);
      assert p == [p[0]] + p[1..] && q == [q[0]] + q[1..];
    }
  }

  /** Runtime identifier of a step reached through the given components. */
  function StepRuntimeId(path: seq<string>, stepId: string): string {
    "step|" + Components(path) + Component(stepId)
  }

  /** Runtime identifier of the workflow container of a call. */
  function WorkflowRuntimeId(path: seq<string>): string {
    "workflow|" + Components(path)
  }

  lemma StepRuntimeIdComponents(path: seq<string>, stepId: string)
    ensures StepRuntimeId(path, stepId) == "step|" + Components(path + [stepId])
  {
    hide Component;
    assert (path + [stepId])[..|path|] == path;
    assert "step|" + (Components(path) + Component(stepId)) == StepRuntimeId(path, stepId);
  }

  /** Distinct (call, step) pairs get distinct runtime identifiers. */
  lemma StepRuntimeIdInjective(p: seq<string>, a: string, q: seq<string>, b: string)
    requires StepRuntimeId(p, a) == StepRuntimeId(q, b)
    ensures p == q && a == b
  {
    hide Component;
    StepRuntimeIdComponents(p, a);
    StepRuntimeIdComponents(q, b);
    var x, y := Components(p + [a]), Components(q + [b]);
    assert ("step|" + x)[5..] == x && ("step|" + y)[5..] == y;
    ComponentsInjective(p + [a], q + [b]);
    assert p == (p + [a])[..|p|] && q == (q + [b])[..|q|];
    assert a == (p + [a])[|p|] && b == (q + [b])[|q|];
  }

  /** Distinct calls get distinct container identifiers. */
  lemma WorkflowRuntimeIdInjective(p: seq<string>, q: seq<string>)
    requires WorkflowRuntimeId(p) == WorkflowRuntimeId(q)
    ensures p == q
  {
    var x, y := Components(p), Components(q);
    assert ("workflow|" + x)[9..] == x && ("workflow|" + y)[9..] == y;
    ComponentsInjective(p, q);
  }

  /** A step and a workflow container never share an identifier. */
  lemma StepIsNotWorkflow(p: seq<string>, a: string, q: seq<string>)
    ensures StepRuntimeId(p, a) != WorkflowRuntimeId(q)
  {
    assert StepRuntimeId(p, a)[0] == 's';
    assert WorkflowRuntimeId(q)[0] == 'w';
  }

  // ----- invocation paths -----

  /** What `validateExecutionIdentity` accepts: bounded, not blank, already trimmed. */
  predicate ValidIdentity(s: string) {
    s != [] && |s| <= MAX_STRING_BYTES && !IsSpace(s[0]) && !IsSpace(s[|s| - 1])
  }

  /** End of the length-prefixed step segment that starts at `pos`, if it is well formed. */
  function SegmentEnd(value: string, pos: nat): (r: Option<nat>)
    requires pos <= |value|
    ensures r.Some? ==> pos < r.value <= |value|
  {
    match IndexFrom(value, ':', pos)
    case None => None
    case Some(colon) =>
      if colon == pos then None else
      match Atoi(value[pos..colon])
      case None => None
      case Some(length) =>
        var start := colon + 1;
        if length < 1 || start + length > |value| || !ValidIdentity(value[start..start + length]) then None
        else Some(start + length)
  }

  /** Ends of all the segments from `pos` to the end of the string, if all are well formed. */
  function SegmentEnds(value: string, pos: nat): (r: Option<seq<nat>>)
    requires pos <= |value|
    decreases |value| - pos
  {
    if pos == |value| then None else
    match SegmentEnd(value, pos)
    case None => None
    case Some(end) =>
      if end == |value| then Some([end])
      else if value[end] != '/' then None
      else match SegmentEnds(value, end + 1)
        case None => None
        case Some(ends) => Some([end] + ends)
  }

  /** Boundaries of a path: the end of the root and of every step segment. */
  function Boundaries(value: string): Option<seq<nat>> {
    match IndexFrom(value, '/', 0)
    case None => Some([|value|])
    case Some(rootEnd) =>
      if !ValidIdentity(value[..rootEnd]) then None
      else match SegmentEnds(value, rootEnd + 1)
        case None => None
        case Some(ends) => Some([rootEnd] + ends)
  }

  predicate ValidPath(value: string) {
    ValidIdentity(value) && Boundaries(value).Some?
  }

  /** One turn of the scanning loop: checks the segment at `position` and finds its end. */
  method ScanSegment(value: string, position: nat) returns (end: Option<nat>)
    requires position <= |value|
    ensures end == SegmentEnd(value, position)
  {
    var separator := IndexFrom(value, ':', position);
    if separator.None? || separator.value == position { return None; }
    var length := Atoi(value[position..separator.value]);
    if length.None? || length.value < 1 { return None; }
    var stepStart := separator.value + 1;
    var stepEnd := stepStart + length.value;
    if stepEnd > |value| { return None; }
    if !ValidIdentity(value[stepStart..stepEnd]) { return None; }
    return Some(stepEnd);
  }

  /** The scanning loop of `validateInvocationPath` decides exactly `ValidPath`. */
  method ValidateInvocationPath(value: string) returns (ok: bool)
    ensures ok == ValidPath(value)
  {
    hide SegmentEnd, ValidIdentity;
    if !ValidIdentity(value) { return false; }
    var rootEnd := IndexFrom(value, '/', 0);
    if rootEnd.None? { return true; }
    if !ValidIdentity(value[..rootEnd.value]) { return false; }
    var position := rootEnd.value + 1;
    ghost var expected := SegmentEnds(value, position).Some?;
    assert expected == ValidPath(value);
    while position < |value|
      invariant 0 <= position <= |value|
      invariant SegmentEnds(value, position).Some? == expected
    {
      var stepEnd := ScanSegment(value, position);
      if stepEnd.None? { return false; }
      if stepEnd.value == |value| { return true; }
      if value[stepEnd.value] != '/' { return false; }
      position := stepEnd.value + 1;
    }
    return false;
  }

  /** The string a child call site is named by, before it is checked. */
  function ChildString(parent: string, stepId: string): string {
    parent + "/" + Component(stepId)
  }

  /** `InvocationPath.Child`: the path of a call made by `stepId` inside `parent`. */
  function Child(parent: string, stepId: string): Option<string> {
    if ValidIdentity(stepId) && ValidPath(ChildString(parent, stepId))
    then Some(ChildString(parent, stepId)) else None
  }

  lemma SegmentEndExtends(p: string, suffix: string, pos: nat)
    requires pos <= |p| && SegmentEnd(p, pos).Some?
    ensures SegmentEnd(p + suffix, pos) == SegmentEnd(p, pos)
  {
    var colon := IndexFrom(p, ':', pos).value;
    IndexFromIs(p + suffix, ':', pos, colon);
    assert (p + suffix)[pos..colon] == p[pos..colon];
    var start, end := colon + 1, SegmentEnd(p, pos).value;
    assert (p + suffix)[start..end] == p[start..end];
  }

  lemma NewSegment(p: string, stepId: string)
    requires ValidIdentity(stepId)
    ensures SegmentEnd(ChildString(p, stepId), |p| + 1) == Some(|ChildString(p, stepId)|)
  {
    var child, pos, digits := ChildString(p, stepId), |p| + 1, Itoa(|stepId|);
    var colon := pos + |digits|;
    assert child[pos..colon] == digits;
    PrefixColon(child, pos, |stepId|);
    AtoiOfItoa(|stepId|);
    assert child[colon + 1..|child|] == stepId;
  }

  lemma {:induction false} SegmentEndsExtend(p: string, stepId: string, pos: nat)
    requires pos <= |p| && SegmentEnds(p, pos).Some? && ValidIdentity(stepId)
    ensures SegmentEnds(ChildString(p, stepId), pos)
         == Some(SegmentEnds(p, pos).value + [|ChildString(p, stepId)|])
    decreases |p| - pos
  {
    hide SegmentEnd, ValidIdentity, Itoa;
    var child := ChildString(p, stepId);
    assert child == p + ("/" + Component(stepId));
    SegmentEndExtends(p, "/" + Component(stepId), pos);
    var end := SegmentEnd(p, pos).value;
    if end == |p| {
      NewSegment(p, stepId);
      assert child[end] == '/';
    } else {
      SegmentEndsExtend(p, stepId, end + 1);
      assert child[end] == p[end] == '/';
      var rest := SegmentEnds(p, end + 1).value;
      assert SegmentEnds(p, pos) == Some([end] + rest);
      assert SegmentEnds(child, pos) == Some([end] + (rest + [|child|]));
      assert [end] + (rest + [|child|]) == ([end] + rest) + [|child|];
    }
  }

  lemma {:induction false} SegmentEndsLast(p: string, pos: nat)
    requires pos <= |p| && SegmentEnds(p, pos).Some?
    ensures var ends := SegmentEnds(p, pos).value; ends != [] && ends[|ends| - 1] == |p|
    decreases |p| - pos
  {
    hide SegmentEnd;
    if SegmentEnd(p, pos).value != |p| {
      SegmentEndsLast(p, SegmentEnd(p, pos).value + 1);
    }
  }

  lemma ChildBoundaries(p: string, stepId: string)
    requires ValidPath(p) && ValidIdentity(stepId)
    ensures Boundaries(ChildString(p, stepId)) == Some(Boundaries(p).value + [|ChildString(p, stepId)|])
    ensures Boundaries(p).value != [] && Boundaries(p).value[|Boundaries(p).value| - 1] == |p|
  {
    hide SegmentEnd, ValidIdentity, Itoa;
    var child := ChildString(p, stepId);
    match IndexFrom(p, '/', 0) {
      case None =>
        assert child[..|p|] == p;
        IndexFromIs(child, '/', 0, |p|);
        NewSegment(p, stepId);
      case Some(rootEnd) =>
        assert child[..rootEnd] == p[..rootEnd];
        IndexFromIs(child, '/', 0, rootEnd);
        SegmentEndsExtend(p, stepId, rootEnd + 1);
        SegmentEndsLast(p, rootEnd + 1);
        var ends := SegmentEnds(p, rootEnd + 1).value;
        assert [rootEnd] + (ends + [|child|]) == ([rootEnd] + ends) + [|child|];
    }
  }

  /** On a valid parent, `Child` fails only for a bad step identity or an over-long result. */
  lemma ChildReparses(p: string, stepId: string)
    requires ValidPath(p)
    ensures Child(p, stepId).Some? <==>
            ValidIdentity(stepId) && |ChildString(p, stepId)| <= MAX_STRING_BYTES
  {
    if ValidIdentity(stepId) {
      ChildBoundaries(p, stepId);
      var child := ChildString(p, stepId);
      assert child[0] == p[0] && child[|child| - 1] == stepId[|stepId| - 1];
    }
  }

  /** Two call sites of valid parents share a path only if they are the same call site. */
  lemma ChildInjective(p: string, a: string, q: string, b: string)
    requires ValidPath(p) && ValidPath(q) && Child(p, a).Some? && Child(p, a) == Child(q, b)
    ensures p == q && a == b
  {
    hide SegmentEnds, ValidIdentity, Component, Boundaries;
    var child := ChildString(p, a);
    ChildBoundaries(p, a);
    ChildBoundaries(q, b);
    var bp, bq := Boundaries(p).value, Boundaries(q).value;
    assert (bp + [|child|])[|bp| - 1] == |p| && (bq + [|child|])[|bq| - 1] == |q|;
    assert |p| == |q|;
    assert child[..|p|] == p && child[..|q|] == q;
    assert child[|p| + 1..] == Component(a) && child[|q| + 1..] == Component(b);
    assert Component(a) + [] == Component(b) + [];
    ComponentPrefixFree(a, [], b, []);
  }
}
