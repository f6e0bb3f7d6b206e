/** The chunked JSON depth check (`registry_api/security.py`) against JSON text
    (sections 2 and 7 of RFC 8259). */
module JsonDepth {
  import opened Basics

  type Byte = bv8
  type Bytes = seq<Byte>

  const QUOTE: Byte := 0x22
  const BACKSLASH: Byte := 0x5c
  const OPEN_ARRAY: Byte := 0x5b
  const CLOSE_ARRAY: Byte := 0x5d
  const OPEN_OBJECT: Byte := 0x7b
  const CLOSE_OBJECT: Byte := 0x7d
  const COMMA: Byte := 0x2c
  const COLON: Byte := 0x3a

  // ---- The scanner ----

  datatype Scanner = Scanner(depth: nat, inString: bool, escape: bool)

  const START := Scanner(0, false, false)

  predicate Opens(b: Byte) { b == OPEN_ARRAY || b == OPEN_OBJECT }

  predicate Closes(b: Byte) { b == CLOSE_ARRAY || b == CLOSE_OBJECT }

  /** One byte; None is "too deep". */
  function ScanByte(s: Scanner, b: Byte, max: nat): Option<Scanner> {
    if s.inString then
      if s.escape then Some(s.(escape := false))
      else if b == BACKSLASH then Some(s.(escape := true))
      else if b == QUOTE then Some(s.(inString := false))
      else Some(s)
    else if b == QUOTE then Some(s.(inString := true))
    else if Opens(b) then if s.depth + 1 > max then None else Some(s.(depth := s.depth + 1))
    else if Closes(b) && s.depth > 0 then Some(s.(depth := s.depth - 1))
    else Some(s)
  }

  function Scan(s: Scanner, bytes: Bytes, max: nat): Option<Scanner>
    decreases |bytes|
  {
    if |bytes| == 0 then Some(s)
    else
      match ScanByte(s, bytes[0], max)
      case None => None
      case Some(next) => Scan(next, bytes[1..], max)
  }

  class JsonDepthValidator {
    const maxDepth: nat
    var depth: nat
    var inString: bool
    var escape: bool

    ghost function Snapshot(): Scanner reads this { Scanner(depth, inString, escape) }

    constructor (maxDepth: nat)
      ensures this.maxDepth == maxDepth && Snapshot() == START
    {
      this.maxDepth := maxDepth;
      depth, inString, escape := 0, false, false;
    }

    /** Stops at the first byte that goes too deep. */
    method Feed(chunk: Bytes) returns (ok: bool)
      modifies this
      ensures var after := Scan(old(Snapshot()), chunk, maxDepth);
              if after.None? then !ok else ok && Snapshot() == after.value
    {
      var i := 0;
      assert chunk[0..] == chunk;
      while i < |chunk|
        invariant i <= |chunk|
        invariant Scan(Snapshot(), chunk[i..], maxDepth) == Scan(old(Snapshot()), chunk, maxDepth)
      {
        var b := chunk[i];
        assert chunk[i..][0] == b && chunk[i..][1..] == chunk[i + 1..];
        if inString {
          if escape { escape := false; }
          else if b == BACKSLASH { escape := true; }
          else if b == QUOTE { inString := false; }
        } else if b == QUOTE {
          inString := true;
        } else if Opens(b) {
          if depth + 1 > maxDepth { return false; }
          depth := depth + 1;
        } else if Closes(b) && depth > 0 {
          depth := depth - 1;
        }
        i := i + 1;
      }
      ok := true;
    }

    /** The body of a request, message by message. */
    method FeedAll(chunks: seq<Bytes>) returns (ok: bool)
      modifies this
      ensures var after := Scan(old(Snapshot()), Joined(chunks), maxDepth);
              if after.None? then !ok else ok && Snapshot() == after.value
    {
      var i := 0;
      while i < |chunks|
        invariant i <= |chunks| && Scan(old(Snapshot()), Joined(chunks[..i]), maxDepth) == Some(Snapshot())
      {
        JoinedNext(chunks, i);
        JoinedSplits(chunks, i + 1);
        ScanAppend(old(Snapshot()), Joined(chunks[..i]), chunks[i], maxDepth);
        ScanAppend(old(Snapshot()), Joined(chunks[..i + 1]), Joined(chunks[i + 1..]), maxDepth);
        var fed := Feed(chunks[i]);
        if !fed { return false; }
        i := i + 1;
      }
      assert chunks[..i] == chunks;
      ok := true;
    }
  }

  /** `_validated_json_messages`: a maximum of zero switches the check off. */
  method ValidateMessages(maxJsonDepth: nat, bodies: seq<Bytes>) returns (ok: bool)
    ensures ok <==> maxJsonDepth == 0 || Scan(START, Joined(bodies), maxJsonDepth).Some?
  {
    if maxJsonDepth == 0 { return true; }
    var validator := new JsonDepthValidator(maxJsonDepth);
    ok := validator.FeedAll(bodies);
  }

  function Joined(chunks: seq<Bytes>): Bytes {
    if |chunks| == 0 then [] else Joined(chunks[..|chunks| - 1]) + chunks[|chunks| - 1]
  }

  lemma {:induction false} JoinedAppend(a: seq<Bytes>, b: seq<Bytes>)
    ensures Joined(a + b) == Joined(a) + Joined(b)
  {
    if |b| == 0 {
      assert a + b == a;
    } else {
      var n := |b| - 1;
      assert (a + b)[..|a + b| - 1] == a + b[..n];
      JoinedAppend(a, b[..n]);
      assert Joined(a) + (Joined(b[..n]) + b[n]) == Joined(a) + Joined(b[..n]) + b[n];
    }
  }

  lemma JoinedNext(chunks: seq<Bytes>, i: nat)
    requires i < |chunks|
    ensures Joined(chunks[..i + 1]) == Joined(chunks[..i]) + chunks[i]
  {
    assert chunks[..i + 1][..i] == chunks[..i];
  }

  lemma JoinedSplits(chunks: seq<Bytes>, i: nat)
    requires i <= |chunks|
    ensures Joined(chunks) == Joined(chunks[..i]) + Joined(chunks[i..])
  {
    JoinedAppend(chunks[..i], chunks[i..]);
    assert chunks == chunks[..i] + chunks[i..];
  }

  lemma {:induction false} ScanAppend(s: Scanner, a: Bytes, b: Bytes, max: nat)
    ensures Scan(s, a + b, max) ==
      match Scan(s, a, max)
      case None => None
      case Some(next) => Scan(next, b, max)
    decreases |a|
  {
    if |a| == 0 {
      assert a + b == b;
    } else {
      assert (a + b)[1..] == a[1..] + b;
      var next := ScanByte(s, a[0], max);
      if next.Some? { ScanAppend(next.value, a[1..], b, max); }
    }
  }

  // ---- JSON text ----

  /** A character of a string: itself, or a backslash and the byte after it. */
  datatype Part = Plain(byte: Byte) | Escaped(byte: Byte)

  datatype Json =
    | Scalar(text: Bytes)
    | Text(parts: seq<Part>)
    | Array(empty: Bytes, elements: seq<Element>)
    | Object(empty: Bytes, members: seq<Member>)

  datatype Element = Element(before: Bytes, value: Json, after: Bytes)

  datatype Member = Member(before: Bytes, name: seq<Part>, colonBefore: Bytes, colonAfter: Bytes, value: Json, after: Bytes)

  predicate Structural(b: Byte) { b == QUOTE || Opens(b) || Closes(b) }

  /** Whitespace, literal names and numbers hold no quote and no bracket. */
  predicate Flat(bytes: Bytes) { forall i | 0 <= i < |bytes| :: !Structural(bytes[i]) }

  predicate PartsOk(parts: seq<Part>) {
    forall i | 0 <= i < |parts| :: parts[i].Plain? ==> parts[i].byte != QUOTE && parts[i].byte != BACKSLASH
  }

  predicate Valid(v: Json) {
    match v
    case Scalar(text) => Flat(text)
    case Text(parts) => PartsOk(parts)
    case Array(empty, elements) =>
      Flat(empty) && forall e | e in elements :: Flat(e.before) && Flat(e.after) && Valid(e.value)
    case Object(empty, members) =>
      Flat(empty) && forall m | m in members ::
        && Flat(m.before) && PartsOk(m.name) && Flat(m.colonBefore) && Flat(m.colonAfter) && Flat(m.after)
        && Valid(m.value)
  }

  function RenderParts(parts: seq<Part>): Bytes {
    if |parts| == 0 then []
    else
      (match parts[0]
       case Plain(b) => [b]
       case Escaped(b) => [BACKSLASH, b])
      + RenderParts(parts[1..])
  }

  function RenderText(parts: seq<Part>): Bytes { [QUOTE] + RenderParts(parts) + [QUOTE] }

  function Render(v: Json): Bytes {
    match v
    case Scalar(text) => text
    case Text(parts) => RenderText(parts)
    case Array(empty, elements) => [OPEN_ARRAY] + empty + RenderElements(elements) + [CLOSE_ARRAY]
    case Object(empty, members) => [OPEN_OBJECT] + empty + RenderMembers(members) + [CLOSE_OBJECT]
  }

  function RenderElements(es: seq<Element>): Bytes {
    if |es| == 0 then []
    else es[0].before + Render(es[0].value) + es[0].after + (if |es| == 1 then [] else [COMMA] + RenderElements(es[1..]))
  }

  function RenderMembers(ms: seq<Member>): Bytes {
    if |ms| == 0 then []
    else
      ms[0].before + RenderText(ms[0].name) + ms[0].colonBefore + [COLON] + ms[0].colonAfter + Render(ms[0].value) + ms[0].after
      + (if |ms| == 1 then [] else [COMMA] + RenderMembers(ms[1..]))
  }

  function Max(a: nat, b: nat): nat { if a < b then b else a }

  /** How many containers enclose the innermost one, itself included. */
  function Depth(v: Json): nat {
    match v
    case Scalar(_) => 0
    case Text(_) => 0
    case Array(_, elements) => 1 + ElementsDepth(elements)
    case Object(_, members) => 1 + MembersDepth(members)
  }

  function ElementsDepth(es: seq<Element>): nat {
    if |es| == 0 then 0 else Max(Depth(es[0].value), ElementsDepth(es[1..]))
  }

  function MembersDepth(ms: seq<Member>): nat {
    if |ms| == 0 then 0 else Max(Depth(ms[0].value), MembersDepth(ms[1..]))
  }

  // ---- Exactness ----

  function At(depth: nat): Scanner { Scanner(depth, false, false) }

  /** Scanning `bytes` at depth `d` comes back to depth `d` unless something inside nests too deep. */
  ghost predicate Passes(bytes: Bytes, d: nat, inner: nat, max: nat) {
    Scan(At(d), bytes, max) == if inner > 0 && d + inner > max then None else Some(At(d))
  }

  lemma {:induction false} FlatPasses(bytes: Bytes, d: nat, max: nat)
    requires Flat(bytes)
    ensures Passes(bytes, d, 0, max)
  {
    if |bytes| > 0 {
      assert ScanByte(At(d), bytes[0], max) == Some(At(d));
      FlatPasses(bytes[1..], d, max);
    }
  }

  lemma Then(a: Bytes, b: Bytes, d: nat, i: nat, j: nat, max: nat)
    requires Passes(a, d, i, max) && Passes(b, d, j, max)
    ensures Passes(a + b, d, Max(i, j), max)
  {
    ScanAppend(At(d), a, b, max);
  }

  lemma {:induction false} PartsStayInside(parts: seq<Part>, d: nat, max: nat)
    requires PartsOk(parts)
    ensures Scan(Scanner(d, true, false), RenderParts(parts) + [QUOTE], max) == Some(At(d))
  {
    var s := Scanner(d, true, false);
    var bytes := RenderParts(parts) + [QUOTE];
    if |parts| == 0 {
      assert bytes == [QUOTE];
      assert Scan(At(d), bytes[1..], max) == Some(At(d));
    } else {
      PartsStayInside(parts[1..], d, max);
      var rest := RenderParts(parts[1..]) + [QUOTE];
      match parts[0]
      case Plain(b) =>
        assert bytes == [b] + rest && bytes[1..] == rest;
      case Escaped(b) =>
        assert bytes == [BACKSLASH] + ([b] + rest) && bytes[1..] == [b] + rest && bytes[1..][1..] == rest;
        assert ScanByte(s, BACKSLASH, max) == Some(Scanner(d, true, true));
        assert ScanByte(Scanner(d, true, true), b, max) == Some(s);
        assert Scan(Scanner(d, true, true), bytes[1..], max) == Scan(s, rest, max);
    }
  }

  lemma TextPasses(parts: seq<Part>, d: nat, max: nat)
    requires PartsOk(parts)
    ensures Passes(RenderText(parts), d, 0, max)
  {
    PartsStayInside(parts, d, max);
    var bytes := RenderText(parts);
    assert bytes == [QUOTE] + (RenderParts(parts) + [QUOTE]);
    assert bytes[1..] == RenderParts(parts) + [QUOTE];
    assert ScanByte(At(d), QUOTE, max) == Some(Scanner(d, true, false));
  }

  lemma ScanOne(s: Scanner, b: Byte, max: nat)
    ensures Scan(s, [b], max) == ScanByte(s, b, max)
  {
  }

  /** A container is one level deeper than its content. */
  lemma ContainerPasses(open: Byte, body: Bytes, close: Byte, d: nat, inner: nat, max: nat)
    requires (open == OPEN_ARRAY && close == CLOSE_ARRAY) || (open == OPEN_OBJECT && close == CLOSE_OBJECT)
    requires Passes(body, d + 1, inner, max)
    ensures Passes([open] + body + [close], d, inner + 1, max)
  {
    ScanOne(At(d), open, max);
    ScanOne(At(d + 1), close, max);
    ScanAppend(At(d), [open], body, max);
    ScanAppend(At(d), [open] + body, [close], max);
  }

  lemma {:induction false} ValuePasses(v: Json, d: nat, max: nat)
    requires Valid(v) && d <= max
    ensures Passes(Render(v), d, Depth(v), max)
    decreases v, 0
  {
    match v
    case Scalar(text) => FlatPasses(text, d, max);
    case Text(parts) => TextPasses(parts, d, max);
    case Array(empty, elements) =>
      FlatPasses(empty, d + 1, max);
      if d < max { ElementsPass(elements, d + 1, max); Then(empty, RenderElements(elements), d + 1, 0, ElementsDepth(elements), max); }
      ArrayPasses(empty, elements, d, max);
    case Object(empty, members) =>
      FlatPasses(empty, d + 1, max);
      if d < max { MembersPass(members, d + 1, max); Then(empty, RenderMembers(members), d + 1, 0, MembersDepth(members), max); }
      ObjectPasses(empty, members, d, max);
  }

  lemma TooDeepAtOnce(open: Byte, rest: Bytes, d: nat, max: nat)
    requires Opens(open) && d == max
    ensures Scan(At(d), [open] + rest, max) == None
  {
  }

  lemma ArrayPasses(empty: Bytes, es: seq<Element>, d: nat, max: nat)
    requires d < max ==> Passes(empty + RenderElements(es), d + 1, ElementsDepth(es), max)
    requires d <= max
    ensures Passes(Render(Array(empty, es)), d, 1 + ElementsDepth(es), max)
  {
    var body := empty + RenderElements(es);
    assert Render(Array(empty, es)) == [OPEN_ARRAY] + body + [CLOSE_ARRAY] == [OPEN_ARRAY] + (body + [CLOSE_ARRAY]);
    if d < max { ContainerPasses(OPEN_ARRAY, body, CLOSE_ARRAY, d, ElementsDepth(es), max); }
    else { TooDeepAtOnce(OPEN_ARRAY, body + [CLOSE_ARRAY], d, max); }
  }

  lemma ObjectPasses(empty: Bytes, ms: seq<Member>, d: nat, max: nat)
    requires d < max ==> Passes(empty + RenderMembers(ms), d + 1, MembersDepth(ms), max)
    requires d <= max
    ensures Passes(Render(Object(empty, ms)), d, 1 + MembersDepth(ms), max)
  {
    var body := empty + RenderMembers(ms);
    assert Render(Object(empty, ms)) == [OPEN_OBJECT] + body + [CLOSE_OBJECT] == [OPEN_OBJECT] + (body + [CLOSE_OBJECT]);
    if d < max { ContainerPasses(OPEN_OBJECT, body, CLOSE_OBJECT, d, MembersDepth(ms), max); }
    else { TooDeepAtOnce(OPEN_OBJECT, body + [CLOSE_OBJECT], d, max); }
  }

  lemma ElementPasses(e: Element, d: nat, max: nat)
    requires Flat(e.before) && Flat(e.after) && Passes(Render(e.value), d, Depth(e.value), max)
    ensures Passes(e.before + Render(e.value) + e.after, d, Depth(e.value), max)
  {
    FlatPasses(e.before, d, max);
    FlatPasses(e.after, d, max);
    Then(e.before, Render(e.value), d, 0, Depth(e.value), max);
    Then(e.before + Render(e.value), e.after, d, Depth(e.value), 0, max);
  }

  lemma {:induction false} ElementsPass(es: seq<Element>, d: nat, max: nat)
    requires forall e | e in es :: Flat(e.before) && Flat(e.after) && Valid(e.value)
    requires d <= max
    ensures Passes(RenderElements(es), d, ElementsDepth(es), max)
    decreases es, 1
  {
    if |es| > 0 {
      ValuePasses(es[0].value, d, max);
      ElementPasses(es[0], d, max);
      if |es| > 1 {
        ElementsPass(es[1..], d, max);
        FlatPasses([COMMA], d, max);
        Then([COMMA], RenderElements(es[1..]), d, 0, ElementsDepth(es[1..]), max);
        Then(es[0].before + Render(es[0].value) + es[0].after, [COMMA] + RenderElements(es[1..]), d,
             Depth(es[0].value), ElementsDepth(es[1..]), max);
      } else {
        assert RenderElements(es) == es[0].before + Render(es[0].value) + es[0].after;
        assert ElementsDepth(es[1..]) == 0;
      }
    }
  }

  function RenderMember(m: Member): Bytes {
    m.before + RenderText(m.name) + m.colonBefore + [COLON] + m.colonAfter + Render(m.value) + m.after
  }

  lemma MemberPasses(m: Member, d: nat, max: nat)
    requires Flat(m.before) && PartsOk(m.name) && Flat(m.colonBefore) && Flat(m.colonAfter) && Flat(m.after)
    requires Passes(Render(m.value), d, Depth(m.value), max)
    ensures Passes(RenderMember(m), d, Depth(m.value), max)
  {
    var k := Depth(m.value);
    FlatPasses(m.before, d, max);
    TextPasses(m.name, d, max);
    FlatPasses(m.colonBefore, d, max);
    FlatPasses([COLON], d, max);
    FlatPasses(m.colonAfter, d, max);
    FlatPasses(m.after, d, max);
    var a := m.before + RenderText(m.name);
    Then(m.before, RenderText(m.name), d, 0, 0, max);
    Then(a, m.colonBefore, d, 0, 0, max);
    Then(a + m.colonBefore, [COLON], d, 0, 0, max);
    Then(a + m.colonBefore + [COLON], m.colonAfter, d, 0, 0, max);
    Then(a + m.colonBefore + [COLON] + m.colonAfter, Render(m.value), d, 0, k, max);
    Then(a + m.colonBefore + [COLON] + m.colonAfter + Render(m.value), m.after, d, k, 0, max);
  }

  lemma {:induction false} MembersPass(ms: seq<Member>, d: nat, max: nat)
    requires forall m | m in ms ::
      && Flat(m.before) && PartsOk(m.name) && Flat(m.colonBefore) && Flat(m.colonAfter) && Flat(m.after) && Valid(m.value)
    requires d <= max
    ensures Passes(RenderMembers(ms), d, MembersDepth(ms), max)
    decreases ms, 1
  {
    if |ms| > 0 {
      ValuePasses(ms[0].value, d, max);
      MemberPasses(ms[0], d, max);
      if |ms| > 1 {
        MembersPass(ms[1..], d, max);
        FlatPasses([COMMA], d, max);
        Then([COMMA], RenderMembers(ms[1..]), d, 0, MembersDepth(ms[1..]), max);
        Then(RenderMember(ms[0]), [COMMA] + RenderMembers(ms[1..]), d, Depth(ms[0].value), MembersDepth(ms[1..]), max);
        assert RenderMembers(ms) == RenderMember(ms[0]) + ([COMMA] + RenderMembers(ms[1..]));
      } else {
        assert RenderMembers(ms) == RenderMember(ms[0]);
        assert MembersDepth(ms[1..]) == 0;
      }
    }
  }

  /** A JSON text, a value with whitespace around it, in any chunking, is rejected exactly when its nesting
      exceeds the maximum; otherwise the scanner ends at depth 0 outside any string. */
  lemma RejectsExactlyTooDeep(before: Bytes, v: Json, after: Bytes, chunks: seq<Bytes>, max: nat)
    requires Valid(v) && Flat(before) && Flat(after) && Joined(chunks) == before + Render(v) + after
    ensures Scan(START, Joined(chunks), max) == if Depth(v) > max then None else Some(START)
  {
    ValuePasses(v, 0, max);
    FlatPasses(before, 0, max);
    FlatPasses(after, 0, max);
    Then(before, Render(v), 0, 0, Depth(v), max);
    Then(before + Render(v), after, 0, Depth(v), 0, max);
  }
}
