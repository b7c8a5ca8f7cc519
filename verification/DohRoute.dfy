/** DoH route templates: parsing, matching and the overlap decision.

    A template is a path with at most one `{client_id}` segment. A template that ends with it also matches the bare
    path before it. Text is modelled as characters, and offsets count characters. */
module DohRoute {
  import opened Basics

  const CLIENT_ID_MARKER: string := "{client_id}"

  datatype PatternError = InvalidPath | InvalidPlaceholder

  datatype Pattern = Pattern(template: string, placeholder: Option<(nat, nat)>)

  datatype Segment = Literal(text: string) | ClientId

  // ---------------------------------------------------------------- text

  predicate OccursAt(text: string, index: nat) {
    index + |CLIENT_ID_MARKER| <= |text| && text[index..index + |CLIENT_ID_MARKER|] == CLIENT_ID_MARKER
  }

  /** The first occurrence of the marker at or after `from`. */
  function Find(text: string, from: nat): (found: Option<nat>)
    ensures found.Some? ==> from <= found.value && OccursAt(text, found.value)
    ensures found.Some? ==> forall i: nat | from <= i < found.value :: !OccursAt(text, i)
    ensures found.None? ==> forall i: nat | from <= i :: !OccursAt(text, i)
    decreases |text| - from
  {
    if from + |CLIENT_ID_MARKER| > |text| then None
    else if OccursAt(text, from) then Some(from)
    else Find(text, from + 1)
  }

  /** One more character in front of the parts of a text. */
  function Prepend(first: char, parts: seq<string>): seq<string>
    requires parts != []
  {
    if first == '/' then [""] + parts else [[first] + parts[0]] + parts[1..]
  }

  /** The parts of a text between slashes. */
  function Split(text: string): (parts: seq<string>)
    ensures parts != []
  {
    if text == "" then [""] else Prepend(text[0], Split(text[1..]))
  }

  function Join(parts: seq<string>): string
    requires parts != []
  {
    if |parts| == 1 then parts[0] else parts[0] + "/" + Join(parts[1..])
  }

  predicate StartsWith(text: string, prefix: string) {
    |prefix| <= |text| && text[..|prefix|] == prefix
  }

  predicate EndsWith(text: string, suffix: string) {
    |suffix| <= |text| && text[|text| - |suffix|..] == suffix
  }

  // ---------------------------------------------------------------- patterns

  predicate ControlFree(text: string) {
    forall i | 0 <= i < |text| :: !(text[i] < ' ') && text[i] != 0x7f as char
  }

  function New(template: string): Result<Pattern, PatternError> {
    if template == "" || template[0] != '/' || '?' in template || '#' in template || !ControlFree(template)
    then Err(InvalidPath)
    else
      var first := Find(template, 0);
      if first.None? then Ok(Pattern(template, None))
      else
        var start, end := first.value, first.value + |CLIENT_ID_MARKER|;
        if Find(template, end).Some? then Err(InvalidPlaceholder)
        else if !(start > 0 && template[start - 1] == '/') || !(end == |template| || template[end] == '/')
        then Err(InvalidPlaceholder)
        else Ok(Pattern(template, Some((start, end))))
  }

  predicate Valid(pattern: Pattern) {
    New(pattern.template) == Ok(pattern)
  }

  function BarePath(pattern: Pattern): Option<string>
    requires Valid(pattern)
  {
    if pattern.placeholder.None? || pattern.placeholder.value.1 != |pattern.template| then None
    else
      var prefix := pattern.template[..pattern.placeholder.value.0];
      if prefix == "/" then Some(prefix) else Some(prefix[..|prefix| - 1])
  }

  predicate IsClientId(value: string) {
    value != "" && '/' !in value && '?' !in value
  }

  /** `matches`: the captured client identifier, if any, of a path the pattern accepts. */
  function Matches(pattern: Pattern, path: string): Option<Option<string>>
    requires Valid(pattern)
  {
    if pattern.placeholder.None? then (if path == pattern.template then Some(None) else None)
    else if BarePath(pattern).Some? && path == BarePath(pattern).value then Some(None)
    else
      var (start, end) := pattern.placeholder.value;
      var prefix, suffix := pattern.template[..start], pattern.template[end..];
      if !StartsWith(path, prefix) || !EndsWith(path, suffix) || |path| - |suffix| < start then None
      else
        var value := path[start..|path| - |suffix|];
        if IsClientId(value) then Some(Some(value)) else None
  }

  function SegmentOf(part: string): Segment {
    if part == CLIENT_ID_MARKER then ClientId else Literal(part)
  }

  function SegmentsOf(parts: seq<string>): seq<Segment> {
    seq(|parts|, i requires 0 <= i < |parts| => SegmentOf(parts[i]))
  }

  function Segments(path: string): seq<Segment> {
    SegmentsOf(Split(path)[1..])
  }

  function PathVariants(pattern: Pattern): seq<seq<Segment>>
    requires Valid(pattern)
  {
    [Segments(pattern.template)] + (if BarePath(pattern).Some? then [Segments(BarePath(pattern).value)] else [])
  }

  predicate SegmentsMeet(left: Segment, right: Segment) {
    match (left, right)
    case (ClientId, ClientId) => true
    case (ClientId, Literal(text)) => text != ""
    case (Literal(text), ClientId) => text != ""
    case (Literal(x), Literal(y)) => x == y
  }

  predicate VariantsOverlap(left: seq<Segment>, right: seq<Segment>) {
    |left| == |right| && forall i | 0 <= i < |left| :: SegmentsMeet(left[i], right[i])
  }

  predicate Overlaps(p: Pattern, q: Pattern)
    requires Valid(p) && Valid(q)
  {
    exists i, j | 0 <= i < |PathVariants(p)| && 0 <= j < |PathVariants(q)| ::
      VariantsOverlap(PathVariants(p)[i], PathVariants(q)[j])
  }

  // ---------------------------------------------------------------- splitting

  lemma SplitStep(first: char, text: string)
    ensures Split([first] + text) == Prepend(first, Split(text))
  {
    assert ([first] + text)[1..] == text;
  }

  lemma PrependConcat(first: char, parts: seq<string>, more: seq<string>)
    requires parts != []
    ensures Prepend(first, parts + more) == Prepend(first, parts) + more
  {
  }

  lemma {:induction false} SplitConcat(before: string, after: string)
    ensures Split(before + "/" + after) == Split(before) + Split(after)
  {
    if before == "" {
      assert before + "/" + after == ['/'] + after;
      SplitStep('/', after);
    } else {
      var rest := before[1..];
      SplitConcat(rest, after);
      assert before + "/" + after == [before[0]] + (rest + "/" + after);
      SplitStep(before[0], rest + "/" + after);
      PrependConcat(before[0], Split(rest), Split(after));
    }
  }

  lemma {:induction false} SplitPart(part: string)
    requires '/' !in part
    ensures Split(part) == [part]
  {
    if part != "" {
      assert '/' !in part[1..];
      SplitPart(part[1..]);
      assert part == [part[0]] + part[1..];
    }
  }

  lemma {:induction false} SplitHasNoSlash(text: string, k: nat)
    requires k < |Split(text)|
    ensures '/' !in Split(text)[k]
  {
    if text != "" {
      SplitHasNoSlash(text[1..], if text[0] == '/' then (if k == 0 then 0 else k - 1) else k);
    }
  }

  lemma {:induction false} SplitAddsNothing(text: string, k: nat, c: char)
    requires k < |Split(text)| && c !in text
    ensures c !in Split(text)[k]
  {
    if text != "" {
      assert c !in text[1..];
      SplitAddsNothing(text[1..], if text[0] == '/' then (if k == 0 then 0 else k - 1) else k, c);
    }
  }

  lemma {:induction false} JoinSplit(text: string)
    ensures Join(Split(text)) == text
  {
    if text != "" {
      JoinSplit(text[1..]);
      var rest := Split(text[1..]);
      if text[0] == '/' {
        assert ([""] + rest)[1..] == rest;
      } else {
        var parts := [[text[0]] + rest[0]] + rest[1..];
        assert parts[1..] == rest[1..];
      }
    }
  }

  lemma {:induction false} SplitJoin(parts: seq<string>)
    requires parts != [] && forall i | 0 <= i < |parts| :: '/' !in parts[i]
    ensures Split(Join(parts)) == parts
  {
    SplitPart(parts[0]);
    if |parts| > 1 {
      SplitJoin(parts[1..]);
      SplitConcat(parts[0], Join(parts[1..]));
    }
  }

  lemma SplitInjective(x: string, y: string)
    requires Split(x) == Split(y)
    ensures x == y
  {
    JoinSplit(x);
    JoinSplit(y);
  }

  /** A part of a text occurs in it; the first part at its beginning. */
  lemma {:induction false} PartOccurs(text: string, k: nat) returns (index: nat)
    requires k < |Split(text)|
    ensures index + |Split(text)[k]| <= |text| && text[index..index + |Split(text)[k]|] == Split(text)[k]
    ensures k == 0 ==> index == 0
  {
    index := 0;
    if text != "" {
      var rest, part := text[1..], Split(text)[k];
      assert Split(text) == Prepend(text[0], Split(rest));
      if text[0] == '/' {
        if k > 0 {
          var at := PartOccurs(rest, k - 1);
          assert part == Split(rest)[k - 1];
          assert text[at + 1..at + 1 + |part|] == rest[at..at + |part|];
          index := at + 1;
        }
      } else {
        var at := PartOccurs(rest, k);
        if k == 0 {
          var tail := Split(rest)[0];
          assert part == [text[0]] + tail;
          assert text[0..1 + |tail|] == [text[0]] + rest[0..|tail|];
        } else {
          assert part == Split(rest)[k];
          assert text[at + 1..at + 1 + |part|] == rest[at..at + |part|];
          index := at + 1;
        }
      }
    }
  }

  /** A text without occurrence of the marker has no part that is the marker. */
  lemma NoOccurrenceNoPart(text: string)
    requires forall i: nat :: !OccursAt(text, i)
    ensures CLIENT_ID_MARKER !in Split(text)
  {
    forall k: nat | k < |Split(text)|
      ensures Split(text)[k] != CLIENT_ID_MARKER
    {
      var index := PartOccurs(text, k);
      assert !OccursAt(text, index);
    }
  }

  lemma SliceOfSlice(text: string, low: nat, high: nat, from: nat, until: nat)
    requires low <= high <= |text| && from <= until <= high - low
    ensures text[low..high][from..until] == text[low + from..low + until]
  {
    var inner, outer := text[low..high][from..until], text[low + from..low + until];
    assert |inner| == |outer| && forall i | 0 <= i < |inner| :: inner[i] == text[low + from + i] == outer[i];
  }

  lemma OccursInSlice(text: string, low: nat, high: nat, index: nat)
    requires low <= high <= |text|
    ensures OccursAt(text[low..high], index) ==> OccursAt(text, low + index) && low + index + |CLIENT_ID_MARKER| <= high
  {
    if index + |CLIENT_ID_MARKER| <= high - low {
      SliceOfSlice(text, low, high, index, index + |CLIENT_ID_MARKER|);
    }
  }

  // ---------------------------------------------------------------- templates as segments

  predicate SegmentAccepts(segment: Segment, part: string) {
    match segment
    case Literal(text) => part == text
    case ClientId => part != "" && '?' !in part
  }

  /** A variant accepts the parts of a path, one by one. */
  predicate Accepts(variant: seq<Segment>, parts: seq<string>) {
    |variant| == |parts| && forall i | 0 <= i < |variant| :: SegmentAccepts(variant[i], parts[i])
  }

  predicate Rooted(path: string) {
    path != "" && path[0] == '/'
  }

  /** The parts of a rooted path that count: all but the empty one before the first slash. */
  function Tail(path: string): seq<string> {
    Split(path)[1..]
  }

  predicate MarkerFree(text: string) {
    CLIENT_ID_MARKER !in Split(text)
  }

  lemma RootedParts(path: string)
    requires Rooted(path)
    ensures Split(path)[0] == "" && |Split(path)| >= 2 && Split(path) == [""] + Tail(path)
  {
  }

  /** A text without placeholder accepts exactly itself. */
  lemma LiteralAccepts(text: string, path: string)
    requires Rooted(text) && Rooted(path) && MarkerFree(text)
    ensures Accepts(Segments(text), Tail(path)) <==> path == text
  {
    RootedParts(text);
    RootedParts(path);
    var parts, others := Split(text), Split(path);
    var segments := Segments(text);
    forall i | 0 <= i < |segments|
      ensures segments[i] == Literal(Tail(text)[i])
    {
      assert parts[i + 1] in parts;
      assert segments[i] == SegmentOf(parts[i + 1]);
      assert SegmentOf(parts[i + 1]) == Literal(parts[i + 1]);
    }
    if Accepts(segments, Tail(path)) {
      forall i | 0 <= i < |segments|
        ensures Tail(text)[i] == Tail(path)[i]
      {
        assert SegmentAccepts(segments[i], Tail(path)[i]);
      }
      assert parts == others;
      SplitInjective(text, path);
    }
  }

  /** The text of a template before the slash of its placeholder, and the text after its placeholder. */
  function Head(pattern: Pattern): string
    requires Valid(pattern) && pattern.placeholder.Some?
  {
    pattern.template[..pattern.placeholder.value.0 - 1]
  }

  function Rest(pattern: Pattern): string
    requires Valid(pattern) && pattern.placeholder.Some?
  {
    pattern.template[pattern.placeholder.value.1..]
  }

  /** The path of a client: the template with the identifier in place of the placeholder. */
  function Filled(pattern: Pattern, value: string): string
    requires Valid(pattern) && pattern.placeholder.Some?
  {
    Head(pattern) + "/" + value + Rest(pattern)
  }

  function RestParts(pattern: Pattern): seq<string>
    requires Valid(pattern) && pattern.placeholder.Some?
  {
    if Rest(pattern) == "" then [] else Split(Rest(pattern)[1..])
  }

  lemma TemplateIsFilled(pattern: Pattern)
    requires Valid(pattern) && pattern.placeholder.Some?
    ensures Filled(pattern, CLIENT_ID_MARKER) == pattern.template
  {
    var (start, end) := pattern.placeholder.value;
    var template := pattern.template;
    assert template == template[..start - 1] + [template[start - 1]] + template[start..end] + template[end..];
  }

  lemma SplitAround(before: string, value: string, after: string)
    requires '/' !in value
    ensures Split(before + "/" + value) == Split(before) + [value]
    ensures Split(before + "/" + value + "/" + after) == Split(before) + [value] + Split(after)
  {
    SplitPart(value);
    SplitConcat(before, value);
    SplitConcat(before + "/" + value, after);
  }

  lemma RejoinFilled(head: string, value: string, rest: string)
    requires rest != "" && rest[0] == '/'
    ensures head + "/" + value + rest == head + "/" + value + "/" + rest[1..]
  {
    assert rest == "/" + rest[1..];
  }

  lemma SplitFilled(pattern: Pattern, value: string)
    requires Valid(pattern) && pattern.placeholder.Some? && '/' !in value
    ensures Split(Filled(pattern, value)) == Split(Head(pattern)) + [value] + RestParts(pattern)
  {
    var head, rest := Head(pattern), Rest(pattern);
    if rest == "" {
      SplitAround(head, value, "");
      assert head + "/" + value + rest == head + "/" + value;
    } else {
      SplitAround(head, value, rest[1..]);
      RejoinFilled(head, value, rest);
    }
  }

  lemma HeadIsRootedOrEmpty(pattern: Pattern)
    requires Valid(pattern) && pattern.placeholder.Some?
    ensures Head(pattern) == "" || Rooted(Head(pattern))
    ensures Split(Head(pattern))[0] == ""
  {
    if Head(pattern) != "" {
      assert Head(pattern)[0] == pattern.template[0];
    }
  }

  /** Only the placeholder is spelled as the marker. */
  lemma HeadIsMarkerFree(pattern: Pattern)
    requires Valid(pattern) && pattern.placeholder.Some?
    ensures MarkerFree(Head(pattern))
  {
    var start := pattern.placeholder.value.0;
    assert Head(pattern) == pattern.template[0..start - 1];
    forall i: nat
      ensures !OccursAt(Head(pattern), i)
    {
      OccursInSlice(pattern.template, 0, start - 1, i);
    }
    NoOccurrenceNoPart(Head(pattern));
  }

  lemma RestIsMarkerFree(pattern: Pattern)
    requires Valid(pattern) && pattern.placeholder.Some?
    ensures CLIENT_ID_MARKER !in RestParts(pattern)
  {
    var end, stop := pattern.placeholder.value.1, |pattern.template|;
    if Rest(pattern) != "" {
      var text := Rest(pattern)[1..];
      assert text == pattern.template[end + 1..stop];
      forall i: nat
        ensures !OccursAt(text, i)
      {
        OccursInSlice(pattern.template, end + 1, stop, i);
      }
      NoOccurrenceNoPart(text);
    }
  }

  lemma PlainIsMarkerFree(pattern: Pattern)
    requires Valid(pattern) && pattern.placeholder.None?
    ensures MarkerFree(pattern.template)
  {
    NoOccurrenceNoPart(pattern.template);
  }

  // ---------------------------------------------------------------- matching by segments

  /** Segments around a marker accept the parts that agree around it, with an identifier in its place. */
  lemma AcceptsAround(head: seq<string>, rest: seq<string>, parts: seq<string>)
    requires CLIENT_ID_MARKER !in head && CLIENT_ID_MARKER !in rest
    ensures Accepts(SegmentsOf(head + [CLIENT_ID_MARKER] + rest), parts) <==>
      && |parts| == |head| + 1 + |rest|
      && parts[|head|] != "" && '?' !in parts[|head|]
      && parts == head + [parts[|head|]] + rest
  {
    var template := head + [CLIENT_ID_MARKER] + rest;
    forall i | 0 <= i < |template|
      ensures SegmentsOf(template)[i] == if i == |head| then ClientId else Literal(template[i])
    {
      if i < |head| {
        assert template[i] == head[i] && head[i] in head;
      } else if i > |head| {
        assert template[i] == rest[i - |head| - 1] && rest[i - |head| - 1] in rest;
      }
    }
    if Accepts(SegmentsOf(template), parts) {
      assert SegmentAccepts(SegmentsOf(template)[|head|], parts[|head|]);
      forall i | 0 <= i < |parts|
        ensures parts[i] == (head + [parts[|head|]] + rest)[i]
      {
        assert SegmentAccepts(SegmentsOf(template)[i], parts[i]);
      }
    }
    if |parts| == |head| + 1 + |rest| && parts == head + [parts[|head|]] + rest {
      forall i | 0 <= i < |parts| && i != |head|
        ensures parts[i] == template[i]
      {
        assert parts[i] == (head + [parts[|head|]] + rest)[i];
      }
    }
  }

  /** The parts of the path of a client, all but the first. */
  lemma FilledTail(pattern: Pattern, value: string)
    requires Valid(pattern) && pattern.placeholder.Some? && '/' !in value
    ensures Tail(Filled(pattern, value)) == Split(Head(pattern))[1..] + [value] + RestParts(pattern)
    ensures Split(Filled(pattern, value)) == [""] + Tail(Filled(pattern, value))
  {
    SplitFilled(pattern, value);
    HeadIsRootedOrEmpty(pattern);
  }

  /** The template variant accepts the parts around one client identifier. */
  lemma TemplateAcceptsAround(pattern: Pattern, parts: seq<string>)
    requires Valid(pattern) && pattern.placeholder.Some?
    ensures var head, rest := Split(Head(pattern))[1..], RestParts(pattern);
      Accepts(Segments(pattern.template), parts) <==>
      && |parts| == |head| + 1 + |rest|
      && parts[|head|] != "" && '?' !in parts[|head|]
      && parts == head + [parts[|head|]] + rest
  {
    HeadIsMarkerFree(pattern);
    RestIsMarkerFree(pattern);
    TemplateIsFilled(pattern);
    FilledTail(pattern, CLIENT_ID_MARKER);
    AcceptsAround(Split(Head(pattern))[1..], RestParts(pattern), parts);
  }

  /** An accepted path is the path of a client. */
  lemma AcceptedIsFilled(pattern: Pattern, path: string) returns (value: string)
    requires Valid(pattern) && pattern.placeholder.Some? && Rooted(path)
    requires Accepts(Segments(pattern.template), Tail(path))
    ensures IsClientId(value) && path == Filled(pattern, value)
  {
    var head := Split(Head(pattern))[1..];
    RootedParts(path);
    TemplateAcceptsAround(pattern, Tail(path));
    value := Tail(path)[|head|];
    SplitHasNoSlash(path, |head| + 1);
    FilledTail(pattern, value);
    SplitInjective(path, Filled(pattern, value));
  }

  /** The path of a client is accepted. */
  lemma FilledIsAccepted(pattern: Pattern, value: string)
    requires Valid(pattern) && pattern.placeholder.Some? && IsClientId(value)
    ensures Accepts(Segments(pattern.template), Tail(Filled(pattern, value)))
  {
    FilledTail(pattern, value);
    TemplateAcceptsAround(pattern, Tail(Filled(pattern, value)));
  }

  /** The template variant accepts exactly the paths of clients. */
  lemma TemplateAccepts(pattern: Pattern, path: string)
    requires Valid(pattern) && pattern.placeholder.Some? && Rooted(path)
    ensures Accepts(Segments(pattern.template), Tail(path)) <==>
      exists value :: IsClientId(value) && path == Filled(pattern, value)
  {
    if Accepts(Segments(pattern.template), Tail(path)) {
      var value := AcceptedIsFilled(pattern, path);
    }
    if value: string :| IsClientId(value) && path == Filled(pattern, value) {
      FilledIsAccepted(pattern, value);
    }
  }

  lemma MatchesClients(pattern: Pattern, path: string)
    requires Valid(pattern) && pattern.placeholder.Some?
    ensures Matches(pattern, path).Some? <==>
      (BarePath(pattern) == Some(path) || exists value :: IsClientId(value) && path == Filled(pattern, value))
  {
    var (start, end) := pattern.placeholder.value;
    var prefix, suffix := pattern.template[..start], pattern.template[end..];
    assert prefix == Head(pattern) + "/";
    if Matches(pattern, path).Some? && BarePath(pattern) != Some(path) {
      var value := path[start..|path| - |suffix|];
      assert path == prefix + value + suffix;
      assert path == Filled(pattern, value);
    }
    if value: string :| IsClientId(value) && path == Filled(pattern, value) {
      FilledIsMatched(pattern, value);
    }
  }

  /** Round trip: the path made for a client identifier is matched, and gives that identifier back. */
  lemma FilledIsMatched(pattern: Pattern, value: string)
    requires Valid(pattern) && pattern.placeholder.Some? && IsClientId(value)
    ensures Matches(pattern, Filled(pattern, value)) == Some(Some(value))
  {
    var (start, end) := pattern.placeholder.value;
    var prefix, suffix := pattern.template[..start], pattern.template[end..];
    assert prefix == Head(pattern) + "/";
    var path := Filled(pattern, value);
    assert path == prefix + value + suffix;
    assert path[..start] == prefix && path[|path| - |suffix|..] == suffix && path[start..|path| - |suffix|] == value;
  }

  predicate AcceptedBy(pattern: Pattern, parts: seq<string>)
    requires Valid(pattern)
  {
    exists i | 0 <= i < |PathVariants(pattern)| :: Accepts(PathVariants(pattern)[i], parts)
  }

  /** Matching text and matching segments agree on every path. */
  lemma MatchesBySegments(pattern: Pattern, path: string)
    requires Valid(pattern)
    ensures Matches(pattern, path).Some? <==> Rooted(path) && AcceptedBy(pattern, Tail(path))
  {
    var variants := PathVariants(pattern);
    if pattern.placeholder.None? {
      PlainIsMarkerFree(pattern);
      if Rooted(path) {
        LiteralAccepts(pattern.template, path);
        assert variants == [Segments(pattern.template)];
        assert variants[0] == Segments(pattern.template);
      }
    } else {
      MatchesClients(pattern, path);
      if Matches(pattern, path).Some? {
        MatchedIsRooted(pattern, path);
      }
      if Rooted(path) {
        TemplateAccepts(pattern, path);
        assert variants[0] == Segments(pattern.template);
        if BarePath(pattern).Some? {
          BareIsPlain(pattern);
          LiteralAccepts(BarePath(pattern).value, path);
          assert variants[1] == Segments(BarePath(pattern).value);
        }
      }
    }
  }

  lemma MatchedIsRooted(pattern: Pattern, path: string)
    requires Valid(pattern) && pattern.placeholder.Some? && Matches(pattern, path).Some?
    ensures Rooted(path)
  {
    assert pattern.template[..pattern.placeholder.value.0][0] == '/';
  }

  lemma BareIsPlain(pattern: Pattern)
    requires Valid(pattern) && BarePath(pattern).Some?
    ensures Rooted(BarePath(pattern).value) && MarkerFree(BarePath(pattern).value)
  {
    var start := pattern.placeholder.value.0;
    var prefix := pattern.template[..start];
    if prefix == "/" {
      SplitPart("");
      SplitConcat("", "");
      assert "" + "/" + "" == "/";
    } else {
      HeadIsMarkerFree(pattern);
      HeadIsRootedOrEmpty(pattern);
      assert prefix[..start - 1] == Head(pattern);
      assert prefix == Head(pattern) + "/";
    }
  }

  // ---------------------------------------------------------------- overlap

  /** A part accepted by two segments that meet. */
  function Meeting(left: Segment, right: Segment): string {
    match (left, right)
    case (ClientId, ClientId) => "a"
    case (ClientId, Literal(text)) => text
    case (Literal(text), _) => text
  }

  predicate Plain(segment: Segment) {
    segment.Literal? ==> '/' !in segment.text && '?' !in segment.text
  }

  /** The literal segments of a variant can stand in a path and in place of a client identifier. */
  lemma VariantIsPlain(pattern: Pattern, i: nat)
    requires Valid(pattern) && i < |PathVariants(pattern)|
    ensures |PathVariants(pattern)[i]| >= 1
    ensures forall k | 0 <= k < |PathVariants(pattern)[i]| :: Plain(PathVariants(pattern)[i][k])
  {
    var text := if i == 0 then pattern.template else BarePath(pattern).value;
    if i == 1 {
      BareIsPlain(pattern);
    }
    RootedParts(text);
    assert PathVariants(pattern)[i] == Segments(text);
    assert '?' !in text by {
      assert forall c | c in text :: c in pattern.template;
    }
    forall k | 0 <= k < |Segments(text)|
      ensures Plain(Segments(text)[k])
    {
      assert Segments(text)[k] == SegmentOf(Split(text)[1..][k]);
      SplitHasNoSlash(text, k + 1);
      SplitAddsNothing(text, k + 1, '?');
    }
  }

  /** Overlapping variants accept a common path. */
  lemma OverlapHasPath(p: Pattern, i: nat, q: Pattern, j: nat) returns (path: string)
    requires Valid(p) && Valid(q) && i < |PathVariants(p)| && j < |PathVariants(q)|
    requires VariantsOverlap(PathVariants(p)[i], PathVariants(q)[j])
    ensures Rooted(path)
    ensures Accepts(PathVariants(p)[i], Tail(path)) && Accepts(PathVariants(q)[j], Tail(path))
  {
    var left, right := PathVariants(p)[i], PathVariants(q)[j];
    VariantIsPlain(p, i);
    VariantIsPlain(q, j);
    var parts := seq(|left|, k requires 0 <= k < |left| => Meeting(left[k], right[k]));
    forall k | 0 <= k < |left|
      ensures '/' !in parts[k] && SegmentAccepts(left[k], parts[k]) && SegmentAccepts(right[k], parts[k])
    {
      assert SegmentsMeet(left[k], right[k]) && Plain(left[k]) && Plain(right[k]);
    }
    path := "/" + Join(parts);
    SplitJoin(parts);
    SplitStep('/', Join(parts));
    assert Tail(path) == parts;
  }

  lemma CommonPathOverlaps(left: seq<Segment>, right: seq<Segment>, parts: seq<string>)
    requires Accepts(left, parts) && Accepts(right, parts)
    ensures VariantsOverlap(left, right)
  {
    forall k | 0 <= k < |left|
      ensures SegmentsMeet(left[k], right[k])
    {
      assert SegmentAccepts(left[k], parts[k]) && SegmentAccepts(right[k], parts[k]);
    }
  }

  /** The overlap test decides whether some path is matched by both templates. */
  lemma OverlapsExactlyWhenCommonPath(p: Pattern, q: Pattern)
    requires Valid(p) && Valid(q)
    ensures Overlaps(p, q) <==> exists path: string :: Matches(p, path).Some? && Matches(q, path).Some?
  {
    if Overlaps(p, q) {
      var i, j :| 0 <= i < |PathVariants(p)| && 0 <= j < |PathVariants(q)|
        && VariantsOverlap(PathVariants(p)[i], PathVariants(q)[j]);
      var path := OverlapHasPath(p, i, q, j);
      MatchesBySegments(p, path);
      MatchesBySegments(q, path);
    }
    if path: string :| Matches(p, path).Some? && Matches(q, path).Some? {
      MatchesBySegments(p, path);
      MatchesBySegments(q, path);
      var i :| 0 <= i < |PathVariants(p)| && Accepts(PathVariants(p)[i], Tail(path));
      var j :| 0 <= j < |PathVariants(q)| && Accepts(PathVariants(q)[j], Tail(path));
      CommonPathOverlaps(PathVariants(p)[i], PathVariants(q)[j], Tail(path));
    }
  }

  /** So a set of routes without overlaps is unambiguous on every path. */
  lemma RoutesWithoutOverlapAreUnambiguous(routes: seq<Pattern>, path: string, i: nat, j: nat)
    requires forall k | 0 <= k < |routes| :: Valid(routes[k])
    requires forall k, l | 0 <= k < l < |routes| :: !Overlaps(routes[k], routes[l])
    requires i < |routes| && j < |routes|
    requires Matches(routes[i], path).Some? && Matches(routes[j], path).Some?
    ensures i == j
  {
    if i < j {
      OverlapsExactlyWhenCommonPath(routes[i], routes[j]);
    } else if j < i {
      OverlapsExactlyWhenCommonPath(routes[j], routes[i]);
    }
  }

  // ---------------------------------------------------------------- templates and paths, on their characters

  /** A rooted path without query, fragment and control characters. */
  predicate CleanPath(template: string) {
    && Rooted(template) && '?' !in template && '#' !in template
    && forall i | 0 <= i < |template| :: template[i] >= ' ' && template[i] != 0x7f as char
  }

  /** The marker stands at most once, and then as a whole segment. */
  ghost predicate OneWholeMarker(template: string) {
    && (forall i: nat, j: nat | OccursAt(template, i) && OccursAt(template, j) :: i == j)
    && (forall i: nat | OccursAt(template, i) ::
        && i > 0 && template[i - 1] == '/'
        && (i + |CLIENT_ID_MARKER| == |template| || template[i + |CLIENT_ID_MARKER|] == '/'))
  }

  /** Occurrences of the marker do not share characters. */
  lemma MarkersAreApart(text: string, i: nat, j: nat)
    requires OccursAt(text, i) && OccursAt(text, j) && i < j
    ensures i + |CLIENT_ID_MARKER| <= j
  {
    assert text[j] == text[j..j + |CLIENT_ID_MARKER|][0] == '{';
    forall k | i < k < i + |CLIENT_ID_MARKER|
      ensures text[k] != '{'
    {
      assert text[k] == text[i..i + |CLIENT_ID_MARKER|][k - i] == CLIENT_ID_MARKER[k - i];
    }
  }

  /** A template is accepted exactly when it is a clean path with at most one marker, as a whole segment; the pattern
      knows where. A path that is not clean is called so; otherwise the marker is to blame. */
  lemma AcceptedTemplates(template: string)
    ensures New(template).Ok? <==> CleanPath(template) && OneWholeMarker(template)
    ensures New(template).Ok? ==>
      var pattern := New(template).value;
      && pattern.template == template && (pattern.placeholder.None? <==> forall i: nat :: !OccursAt(template, i))
      && (pattern.placeholder.Some? ==>
          && OccursAt(template, pattern.placeholder.value.0)
          && pattern.placeholder.value.1 == pattern.placeholder.value.0 + |CLIENT_ID_MARKER|)
    ensures New(template).Err? ==>
      New(template).error == if CleanPath(template) then InvalidPlaceholder else InvalidPath
  {
    var first := Find(template, 0);
    if CleanPath(template) && first.Some? {
      var start, end := first.value, first.value + |CLIENT_ID_MARKER|;
      forall i: nat, j: nat | OccursAt(template, i) && OccursAt(template, j) && Find(template, end).None?
        ensures i == j
      {
        if i != start { MarkersAreApart(template, start, i); }
        if j != start { MarkersAreApart(template, start, j); }
      }
    }
  }

  /** A template that ends with the marker, less that segment; of the root, the slash remains. */
  predicate IsBare(template: string, path: string) {
    || (path != "" && template == path + "/" + CLIENT_ID_MARKER)
    || (path == "/" && template == path + CLIENT_ID_MARKER)
  }

  /** The template with an identifier in the place of its marker. */
  predicate IsFilled(pattern: Pattern, path: string, value: string)
    requires Valid(pattern) && pattern.placeholder.Some?
  {
    var (start, end) := pattern.placeholder.value;
    && value != "" && '/' !in value && '?' !in value
    && path == pattern.template[..start] + value + pattern.template[end..]
  }

  /** A path is matched without an identifier exactly when it is a template without marker, or a template that ends with
      the marker less that segment; and with one exactly when it is the template with a non-empty identifier, free of
      slashes and question marks, in the place of the marker. */
  lemma MatchedPaths(pattern: Pattern, path: string)
    requires Valid(pattern)
    ensures Matches(pattern, path) == Some(None) <==>
      if pattern.placeholder.None? then path == pattern.template
      else IsBare(pattern.template, path)
    ensures forall value: string ::
      Matches(pattern, path) == Some(Some(value)) <==>
      pattern.placeholder.Some? && Matches(pattern, path) != Some(None) && IsFilled(pattern, path, value)
  {
    if pattern.placeholder.Some? {
      BareExactly(pattern, path);
      FilledExactly(pattern, path);
    }
  }

  lemma BareExactly(pattern: Pattern, path: string)
    requires Valid(pattern) && pattern.placeholder.Some?
    ensures BarePath(pattern) == Some(path) <==> IsBare(pattern.template, path)
  {
    var (start, end) := pattern.placeholder.value;
    var template := pattern.template;
    AcceptedTemplates(template);
    assert template == template[..start] + CLIENT_ID_MARKER + template[end..];
    assert template[..start] == template[..start - 1] + "/";
    if path != "" && template == path + "/" + CLIENT_ID_MARKER {
      MarkerEndsAt(path + "/", template);
      assert template[..start] == path + "/";
    } else if path == "/" && template == path + CLIENT_ID_MARKER {
      MarkerEndsAt(path, template);
    }
  }

  lemma MarkerEndsAt(front: string, template: string)
    requires template == front + CLIENT_ID_MARKER
    ensures OccursAt(template, |front|) && template[..|front|] == front
  {
  }

  lemma FilledExactly(pattern: Pattern, path: string)
    requires Valid(pattern) && pattern.placeholder.Some?
    ensures forall value: string ::
      Matches(pattern, path) == Some(Some(value)) <==>
      Matches(pattern, path) != Some(None) && IsFilled(pattern, path, value)
  {
    var (start, end) := pattern.placeholder.value;
    var prefix, suffix := pattern.template[..start], pattern.template[end..];
    forall value: string
      ensures Matches(pattern, path) == Some(Some(value)) <==>
        Matches(pattern, path) != Some(None) && IsFilled(pattern, path, value)
    {
      if path == prefix + value + suffix {
        var end := |path| - |suffix|;
        assert path[..start] == prefix && path[end..] == suffix && path[start..end] == value;
      }
      if Matches(pattern, path) == Some(Some(value)) {
        assert path == path[..start] + path[start..|path| - |suffix|] + path[|path| - |suffix|..];
      }
    }
  }
}
