/** The Logstash JSON formatter: one log event becomes one JSON object on one line. */
module Formatter {
  import opened Common
  import opened Json

  /** Serilog's event levels; `LevelName` is the enum member's name, as `ToString` gives it. */
  datatype Level = Verbose | Debug | Information | Warning | Error | Fatal

  function LevelName(l: Level): string {
    match l
    case Verbose => "Verbose"
    case Debug => "Debug"
    case Information => "Information"
    case Warning => "Warning"
    case Error => "Error"
    case Fatal => "Fatal"
  }

  /** A property of the event; `value` is the text its value renders to (a string scalar). */
  datatype Property = Property(key: string, value: string)

  /** A log event, with its timestamp already rendered in round-trip ("o") form, its message already
      rendered from the template, its exception already rendered by `ToString`, and its properties
      in the order the event's dictionary enumerates them. */
  datatype LogEvent = LogEvent(
    timestamp: string,
    level: Level,
    message: string,
    exception: Option<string>,
    properties: seq<Property>)

  /** Serilog property names are never empty. */
  predicate KeysNonEmpty(ps: seq<Property>) {
    forall i :: 0 <= i < |ps| ==> ps[i].key != []
  }

  /** The camel-cased key: the first character lower-cased, the rest kept. */
  function CamelCase(key: string): (r: string)
    requires key != []
    ensures |r| == |key| && r[1..] == key[1..]
    ensures r[0] == LowerChar(key[0]) && !('A' <= r[0] <= 'Z')
  {
    [LowerChar(key[0])] + key[1..]
  }

  /** Each property becomes a member under its camel-cased key. */
  function PropertyMembers(ps: seq<Property>): (ms: seq<Member>)
    requires KeysNonEmpty(ps)
    ensures |ms| == |ps|
    ensures forall i :: 0 <= i < |ps| ==> ms[i] == Member(CamelCase(ps[i].key), ps[i].value)
  {
    if ps == [] then [] else [Member(CamelCase(ps[0].key), ps[0].value)] + PropertyMembers(ps[1..])
  }

  /** The three members every event carries. */
  function FixedMembers(e: LogEvent): seq<Member> {
    [Member("timestamp", e.timestamp), Member("level", LevelName(e.level)), Member("message", e.message)]
  }

  /** The `exception` member, present only when the event has an exception. */
  function ExceptionMembers(e: LogEvent): seq<Member> {
    match e.exception
    case None => []
    case Some(x) => [Member("exception", x)]
  }

  /** The members of the object written for an event, in the order they are written. */
  function LogstashMembers(e: LogEvent): (ms: seq<Member>)
    requires KeysNonEmpty(e.properties)
    ensures |ms| == 3 + |Held(e.exception)| + |e.properties|
    ensures ms[0] == Member("timestamp", e.timestamp)
    ensures ms[1] == Member("level", LevelName(e.level))
    ensures ms[2] == Member("message", e.message)
    ensures e.exception.Some? ==> ms[3] == Member("exception", e.exception.value)
    ensures forall i :: 0 <= i < |e.properties| ==>
      ms[3 + |Held(e.exception)| + i] == Member(CamelCase(e.properties[i].key), e.properties[i].value)
  {
    FixedMembers(e) + ExceptionMembers(e) + PropertyMembers(e.properties)
  }

  const NewLine: string := "\n"

  /** The full text written for an event: the object and the line terminator. */
  function FormatText(e: LogEvent): string
    requires KeysNonEmpty(e.properties)
  {
    ObjectText(LogstashMembers(e)) + NewLine
  }

  /** A JSON reader recovers every member of the event, in order, and stops at the line end. */
  lemma FormatTextReadsBack(e: LogEvent)
    requires KeysNonEmpty(e.properties)
    ensures ParseObject(FormatText(e)) == Some((LogstashMembers(e), NewLine))
  {
    ObjectRoundTrip(LogstashMembers(e), NewLine);
  }

  /** No comma precedes the closing brace, whether or not the event has properties. */
  lemma FormatTextNoTrailingComma(e: LogEvent)
    requires KeysNonEmpty(e.properties)
    ensures var t := FormatText(e); |t| >= 3 && t[|t| - 2] == '}' && t[|t| - 3] != ','
  {
    NoCommaBeforeClosingBrace(LogstashMembers(e));
  }

  /** An event with an exception and no properties ends with the exception member and the brace. */
  lemma ExceptionEndsObject(e: LogEvent)
    requires e.exception.Some? && e.properties == []
    ensures FormatText(e) ==
      ['{'] + Members(FixedMembers(e)) + [','] + MemberText(Member("exception", e.exception.value)) + ['}'] + NewLine
  {
    assert PropertyMembers(e.properties) == [];
    LastMemberOfObject(FixedMembers(e), Member("exception", e.exception.value));
  }

  /** The object text of a list with a last member `x` ends with a comma, `x` and the brace. */
  lemma LastMemberOfObject(head: seq<Member>, x: Member)
    requires head != []
    ensures ObjectText(head + [x] + []) == ['{'] + Members(head) + [','] + MemberText(x) + ['}']
  {
    var all := head + [x];
    assert head + [x] + [] == all;
    assert Members(all) == Members(head) + [','] + MemberText(x) by {
      MembersSnoc(head, x);
    }
  }

  datatype FormatError = ArgumentNullException(paramName: string)

  /** The part of a `TextWriter` the formatter uses: the text written so far. */
  class TextWriter {
    var text: string

    constructor ()
      ensures text == []
    {
      text := [];
    }

    method Write(s: string)
      modifies this
      ensures text == old(text) + s
    {
      text := text + s;
    }
  }

  /** Writes a key and a value as two quoted JSON strings joined by a colon. */
  method WritePropertyAndValue(output: TextWriter, key: string, value: string)
    modifies output
    ensures output.text == old(output.text) + MemberText(Member(key, value))
  {
    output.Write(Quote(key));
    output.Write([':']);
    output.Write(Quote(value));
  }

  /** The text of the properties after the first members: nothing, or a comma and the members. */
  function PropertiesText(props: seq<Member>): string {
    if props == [] then [] else [','] + Members(props)
  }

  /** Writes a leading comma when there are properties, then the properties joined by commas. */
  method WriteProperties(properties: seq<Property>, output: TextWriter)
    requires KeysNonEmpty(properties)
    modifies output
    ensures output.text == old(output.text) + PropertiesText(PropertyMembers(properties))
  {
    ghost var initial := output.text;
    if |properties| > 0 {
      output.Write([',']);
    }
    ghost var start := output.text;
    var precedingDelimiter: string := [];
    for i := 0 to |properties|
      invariant precedingDelimiter == if i == 0 then [] else [',']
      invariant output.text == start + Members(PropertyMembers(properties[..i]))
    {
      ghost var before := output.text;
      ghost var delimiter := precedingDelimiter;
      output.Write(precedingDelimiter);
      precedingDelimiter := [','];
      var camelCasePropertyKey := CamelCase(properties[i].key);
      WritePropertyAndValue(output, camelCasePropertyKey, properties[i].value);
      PropertyMembersPrefix(properties, i);
      WrittenMember(start, PropertyMembers(properties[..i]), Member(camelCasePropertyKey, properties[i].value),
        delimiter, before, output.text);
    }
    assert properties[..|properties|] == properties;
    LeadingComma(initial, start, PropertyMembers(properties), output.text);
  }

  /** The leading comma and the joined members make up the properties' text. */
  lemma LeadingComma(initial: string, start: string, props: seq<Member>, after: string)
    requires start == initial + (if props == [] then [] else [','])
    requires after == start + Members(props)
    ensures after == initial + PropertiesText(props)
  {
    if props == [] {
      assert Members(props) == [] && PropertiesText(props) == [];
      assert initial + [] == initial;
      assert start + [] == start;
    } else {
      Reassociate(initial, [','], Members(props));
    }
  }

  /** One more member written after the delimiter extends the joined text by that member. */
  lemma WrittenMember(start: string, done: seq<Member>, m: Member, delimiter: string, before: string, after: string)
    requires delimiter == if done == [] then [] else [',']
    requires before == start + Members(done)
    requires after == before + delimiter + MemberText(m)
    ensures after == start + Members(done + [m])
  {
    MembersSnoc(done, m);
    Reassociate3(start, Members(done), delimiter, MemberText(m));
  }

  /** The members of a prefix of the properties grow by one member per property. */
  lemma {:induction false} PropertyMembersPrefix(ps: seq<Property>, i: nat)
    requires KeysNonEmpty(ps) && i < |ps|
    ensures KeysNonEmpty(ps[..i]) && KeysNonEmpty(ps[..i + 1])
    ensures PropertyMembers(ps[..i + 1]) == PropertyMembers(ps[..i]) + [Member(CamelCase(ps[i].key), ps[i].value)]
  {
    assert ps[..i + 1] == ps[..i] + [ps[i]];
    PropertyMembersSnoc(ps[..i], ps[i]);
  }

  /** The properties written after the first members extend the joined text by all of them. */
  lemma WrittenProperties(start: string, head: seq<Member>, props: seq<Member>, before: string, after: string)
    requires head != []
    requires before == start + Members(head)
    requires after == before + PropertiesText(props)
    ensures after == start + Members(head + props)
  {
    if props == [] {
      NoPropertiesWritten(start, head, props, before, after);
    } else {
      SomePropertiesWritten(start, head, props, before, after);
    }
  }

  lemma NoPropertiesWritten(start: string, head: seq<Member>, props: seq<Member>, before: string, after: string)
    requires head != [] && props == []
    requires before == start + Members(head)
    requires after == before + PropertiesText(props)
    ensures after == start + Members(head + props)
  {
    assert head + props == head;
  }

  lemma SomePropertiesWritten(start: string, head: seq<Member>, props: seq<Member>, before: string, after: string)
    requires head != [] && props != []
    requires before == start + Members(head)
    requires after == before + PropertiesText(props)
    ensures after == start + Members(head + props)
  {
    MembersAppend(head, props);
    Reassociate3(start, Members(head), [','], Members(props));
  }

  /** The opening brace, the joined members and the closing brace make up the object's text. */
  lemma ClosingBrace(initial: string, start: string, ms: seq<Member>, before: string, after: string)
    requires start == initial + ['{']
    requires before == start + Members(ms)
    requires after == before + ['}']
    ensures after == initial + ObjectText(ms)
  {
    Reassociate3(initial, ['{'], Members(ms), ['}']);
  }

  /** The three fixed members written one after the other, separated by commas. */
  lemma FixedWritten(e: LogEvent, start: string, t1: string, t2: string, t3: string, t4: string, t5: string)
    requires t1 == start + MemberText(Member("timestamp", e.timestamp))
    requires t2 == t1 + [',']
    requires t3 == t2 + MemberText(Member("level", LevelName(e.level)))
    requires t4 == t3 + [',']
    requires t5 == t4 + MemberText(Member("message", e.message))
    ensures t5 == start + Members(FixedMembers(e))
  {
    var m0, m1, m2 := Member("timestamp", e.timestamp), Member("level", LevelName(e.level)), Member("message", e.message);
    FixedMembersInOrder(e);
    assert t1 == start + Members([] + [m0]) by {
      WrittenMember(start, [], m0, [], start, t1);
    }
    assert t3 == start + Members([] + [m0] + [m1]) by {
      WrittenMember(start, [] + [m0], m1, [','], t1, t3);
    }
    WrittenMember(start, [] + [m0] + [m1], m2, [','], t3, t5);
  }

  /** The exception member written after the fixed ones, separated by a comma. */
  lemma ExceptionWritten(e: LogEvent, start: string, t5: string, t6: string, t7: string)
    requires e.exception.Some?
    requires t5 == start + Members(FixedMembers(e))
    requires t6 == t5 + [',']
    requires t7 == t6 + MemberText(Member("exception", e.exception.value))
    ensures t7 == start + Members(FixedMembers(e) + ExceptionMembers(e))
  {
    WrittenMember(start, FixedMembers(e), Member("exception", e.exception.value), [','], t5, t7);
  }

  /** The fixed members, as the writes build them one after the other. */
  lemma FixedMembersInOrder(e: LogEvent)
    ensures FixedMembers(e) ==
      [] + [Member("timestamp", e.timestamp)] + [Member("level", LevelName(e.level))] + [Member("message", e.message)]
  {
  }

  lemma PropertyMembersSnoc(ps: seq<Property>, p: Property)
    requires KeysNonEmpty(ps) && p.key != []
    ensures KeysNonEmpty(ps + [p])
    ensures PropertyMembers(ps + [p]) == PropertyMembers(ps) + [Member(CamelCase(p.key), p.value)]
  {
    assert KeysNonEmpty(ps + [p]) by {
      forall i | 0 <= i < |ps + [p]| ensures (ps + [p])[i].key != [] {
        if i < |ps| { assert (ps + [p])[i] == ps[i]; }
      }
    }
  }

  /** Writes the object for an event, or fails with nothing written when an argument is missing. */
  method FormatContent(logEvent: Option<LogEvent>, output: TextWriter?) returns (r: Outcome<FormatError>)
    requires logEvent.Some? ==> KeysNonEmpty(logEvent.value.properties)
    modifies output
    ensures logEvent.None? ==> r == Fail(ArgumentNullException("logEvent"))
    ensures logEvent.Some? && output == null ==> r == Fail(ArgumentNullException("output"))
    ensures r.Fail? && output != null ==> output.text == old(output.text)
    ensures logEvent.Some? && output != null ==>
      r == Pass && output.text == old(output.text) + ObjectText(LogstashMembers(logEvent.value))
  {
    if logEvent.None? {
      return Fail(ArgumentNullException("logEvent"));
    }
    if output == null {
      return Fail(ArgumentNullException("output"));
    }
    var e := logEvent.value;
    ghost var initial := output.text;
    output.Write(['{']);
    ghost var start := output.text;
    WritePropertyAndValue(output, "timestamp", e.timestamp);
    ghost var t1 := output.text;
    output.Write([',']);
    ghost var t2 := output.text;
    WritePropertyAndValue(output, "level", LevelName(e.level));
    ghost var t3 := output.text;
    output.Write([',']);
    ghost var t4 := output.text;
    WritePropertyAndValue(output, "message", e.message);
    FixedWritten(e, start, t1, t2, t3, t4, output.text);
    ghost var fixedText := output.text;
    if e.exception.Some? {
      output.Write([',']);
      ghost var t6 := output.text;
      WritePropertyAndValue(output, "exception", e.exception.value);
      ExceptionWritten(e, start, fixedText, t6, output.text);
    } else {
      AppendEmpty(FixedMembers(e));
    }
    ghost var head := FixedMembers(e) + ExceptionMembers(e);
    ghost var before := output.text;
    WriteProperties(e.properties, output);
    WrittenProperties(start, head, PropertyMembers(e.properties), before, output.text);
    before := output.text;
    output.Write(['}']);
    ClosingBrace(initial, start, LogstashMembers(e), before, output.text);
    r := Pass;
  }

  /** Writes the object for an event followed by a line end; a missing argument fails before
      anything is written. */
  method Format(logEvent: Option<LogEvent>, output: TextWriter?) returns (r: Outcome<FormatError>)
    requires logEvent.Some? ==> KeysNonEmpty(logEvent.value.properties)
    modifies output
    ensures logEvent.None? ==> r == Fail(ArgumentNullException("logEvent"))
    ensures logEvent.Some? && output == null ==> r == Fail(ArgumentNullException("output"))
    ensures r.Fail? && output != null ==> output.text == old(output.text)
    ensures logEvent.Some? && output != null ==>
      r == Pass && output.text == old(output.text) + FormatText(logEvent.value)
  {
    r := FormatContent(logEvent, output);
    if r.Pass? {
      output.Write(NewLine);
      Reassociate(old(output.text), ObjectText(LogstashMembers(logEvent.value)), NewLine);
    }
  }
}
