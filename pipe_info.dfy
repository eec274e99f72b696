/**
 * Pipe and segment descriptors (`Segment`, `PipeInfo`): a segment is a
 * type plus three sets of strings, a pipe is a type, a name and an ordered
 * list of segments.
 */
module PipeInfo {
  import opened StringOrder

  /** The value of a `Segment` struct, as it is copied into a pipe's segment list. */
  datatype SegmentValue = SegmentValue(
    segmentType: string,
    requiredInputTopicTypes: set<string>,
    requiredOutputTopicTypes: set<string>,
    requiredParameters: set<string>)

  /** `operator==(Segment, Segment)`: the type and all three sets agree. */
  predicate SegmentEquals(a: SegmentValue, b: SegmentValue)
  {
    && a.segmentType == b.segmentType
    && a.requiredInputTopicTypes == b.requiredInputTopicTypes
    && a.requiredOutputTopicTypes == b.requiredOutputTopicTypes
    && a.requiredParameters == b.requiredParameters
  }

  /** Segment equality is identity of segment values, hence an equivalence relation. */
  lemma SegmentEqualsIsIdentity(a: SegmentValue, b: SegmentValue, c: SegmentValue)
    ensures SegmentEquals(a, b) <==> a == b
    ensures SegmentEquals(a, a)
    ensures SegmentEquals(a, b) ==> SegmentEquals(b, a)
    ensures SegmentEquals(a, b) && SegmentEquals(b, c) ==> SegmentEquals(a, c)
  {
  }

  /** `std::vector<Segment>` equality: same length and pairwise `operator==`. */
  predicate SegmentsEqual(a: seq<SegmentValue>, b: seq<SegmentValue>)
  {
    |a| == |b| && forall i :: 0 <= i < |a| ==> SegmentEquals(a[i], b[i])
  }

  lemma SegmentsEqualIsIdentity(a: seq<SegmentValue>, b: seq<SegmentValue>)
    ensures SegmentsEqual(a, b) <==> a == b
  {
    if SegmentsEqual(a, b) {
      assert forall i :: 0 <= i < |a| ==> a[i] == b[i];
    }
  }

  const SegmentHeading := "|_+_segment type: "
  const InputHeading := "| |_required input topic types: "
  const OutputHeading := "| |_required output topic types: "
  const SegmentSeparator := "| \n"

  /** One line of `Segment::toString`: nothing for an empty set, otherwise the heading and the ", "-joined elements in set order. */
  ghost function TopicLine(heading: string, topics: set<string>): string
  {
    if topics == {} then "" else heading + Join(SetOrder(topics), ", ") + "\n"
  }

  /** What `Segment::toString` prints: the type line, then the input line, then the output line. */
  ghost function SegmentText(s: SegmentValue): string
  {
    SegmentHeading + s.segmentType + "\n"
    + TopicLine(InputHeading, s.requiredInputTopicTypes)
    + TopicLine(OutputHeading, s.requiredOutputTopicTypes)
  }

  /** The required parameters never appear in a segment's text. */
  lemma SegmentTextIgnoresParameters(s: SegmentValue, parameters: set<string>)
    ensures SegmentText(s.(requiredParameters := parameters)) == SegmentText(s)
  {
  }

  /**
   * A printed topic line lists every topic of a non-empty set exactly once,
   * ascending, and the list reads back into the set (names without commas).
   */
  lemma TopicLineListsEachOnce(heading: string, topics: set<string>)
    requires topics != {}
    requires forall x :: x in topics ==> CommaFree(x)
    ensures var listed := SplitTopics(Join(SetOrder(topics), ", "));
      && TopicLine(heading, topics) == heading + Join(listed, ", ") + "\n"
      && |listed| == |topics|
      && (forall x :: x in listed <==> x in topics)
      && (forall i, j :: 0 <= i < j < |listed| ==> Below(listed[i], listed[j]) && listed[i] != listed[j])
  {
    var order := SetOrder(topics);
    SetOrderElements(topics);
    forall i | 0 <= i < |order|
      ensures CommaFree(order[i])
    {
      assert order[i] in topics;
    }
    SplitJoin(order);
    forall i, j | 0 <= i < j < |order|
      ensures Below(order[i], order[j]) && order[i] != order[j]
    {
      SetOrderAscending(topics, i, j);
    }
  }

  /** One iteration of the topic loop: the least remaining topic is the next one in set order, printed after a separator unless it is the first. */
  lemma PrintNextTopic(heading: string, topics: set<string>, done: seq<string>, rest: set<string>, topic: string)
    requires SetOrder(topics) == done + SetOrder(rest)
    requires topic in rest && LowerBound(topic, rest)
    ensures SetOrder(topics) == (done + [topic]) + SetOrder(rest - {topic})
    ensures heading + Join(done, ", ") + (if done != [] then ", " else "") + topic
            == heading + Join(done + [topic], ", ")
  {
    LeastUnique(rest, topic);
    assert SetOrder(rest) == [topic] + SetOrder(rest - {topic});
    if done == [] {
      assert done + [topic] == [topic];
    } else {
      JoinSnoc(done, topic, ", ");
    }
  }

  /** The loop of `Segment::toString` over one set of topic types. */
  method FormatTopicLine(heading: string, topics: set<string>) returns (str: string)
    ensures str == TopicLine(heading, topics)
  {
    str := "";
    if topics != {} {
      str := heading;
      var rest := topics;
      ghost var done: seq<string> := [];
      while rest != {}
        invariant SetOrder(topics) == done + SetOrder(rest)
        invariant str == heading + Join(done, ", ") + (if done != [] && rest != {} then ", " else "")
        decreases rest
      {
        var topic :| topic in rest && LowerBound(topic, rest);
        PrintNextTopic(heading, topics, done, rest, topic);
        str := str + topic;
        done := done + [topic];
        rest := rest - {topic};
        // `topic != *std::prev(end)`: the set's greatest element is the one visited last
        if rest != {} {
          str := str + ", ";
        }
      }
      assert done == SetOrder(topics);
      str := str + "\n";
    }
  }

  /** `Segment::toString` on a segment value. */
  method FormatSegment(s: SegmentValue) returns (str: string)
    ensures str == SegmentText(s)
  {
    str := SegmentHeading + s.segmentType + "\n";
    var inputs := FormatTopicLine(InputHeading, s.requiredInputTopicTypes);
    str := str + inputs;
    var outputs := FormatTopicLine(OutputHeading, s.requiredOutputTopicTypes);
    str := str + outputs;
  }

  /** The `Segment` struct, whose `add*` members insert into its sets in place. */
  class Segment {
    var segmentType: string
    var requiredInputTopicTypes: set<string>
    var requiredOutputTopicTypes: set<string>
    var requiredParameters: set<string>

    function Value(): SegmentValue
      reads this
    {
      SegmentValue(segmentType, requiredInputTopicTypes, requiredOutputTopicTypes, requiredParameters)
    }

    constructor ()
      ensures Value() == SegmentValue("", {}, {}, {})
    {
      segmentType := "";
      requiredInputTopicTypes := {};
      requiredOutputTopicTypes := {};
      requiredParameters := {};
    }

    method AddInputTopicType(topicType: string)
      modifies this`requiredInputTopicTypes
      ensures requiredInputTopicTypes == old(requiredInputTopicTypes) + {topicType}
      ensures topicType in old(requiredInputTopicTypes) ==> Value() == old(Value())
    {
      requiredInputTopicTypes := requiredInputTopicTypes + {topicType};
    }

    method AddOutputTopicType(topicType: string)
      modifies this`requiredOutputTopicTypes
      ensures requiredOutputTopicTypes == old(requiredOutputTopicTypes) + {topicType}
      ensures topicType in old(requiredOutputTopicTypes) ==> Value() == old(Value())
    {
      requiredOutputTopicTypes := requiredOutputTopicTypes + {topicType};
    }

    method AddRequiredParameter(parameter: string)
      modifies this`requiredParameters
      ensures requiredParameters == old(requiredParameters) + {parameter}
      ensures parameter in old(requiredParameters) ==> Value() == old(Value())
    {
      requiredParameters := requiredParameters + {parameter};
    }

    method ToString() returns (str: string)
      ensures str == SegmentText(Value())
    {
      str := FormatSegment(Value());
    }
  }

  /** What `PipeInfo::toString` prints after its two heading lines: the segments' texts separated by "| \n". */
  ghost function SegmentsText(segments: seq<SegmentValue>): string
    decreases |segments|
  {
    if |segments| == 0 then ""
    else if |segments| == 1 then SegmentText(segments[0])
    else SegmentsText(segments[..|segments| - 1]) + SegmentSeparator + SegmentText(segments[|segments| - 1])
  }

  /** One iteration of the pipe printer: the next segment's text follows a separator unless it is the first. */
  lemma PrintNextSegment(heading: string, segments: seq<SegmentValue>, i: nat)
    requires i < |segments|
    ensures heading + SegmentsText(segments[..i]) + (if 0 < i then SegmentSeparator else "") + SegmentText(segments[i])
            == heading + SegmentsText(segments[..i + 1])
  {
    var prefix := segments[..i + 1];
    assert prefix[..i] == segments[..i] && prefix[i] == segments[i];
  }

  /** The range of `unsigned int`, the type `getPipeSize` returns a `size_t` as. */
  const UintRange: nat := 0x1_0000_0000

  /** The `PipeInfo` class; its reliability is not part of this model. */
  class PipeInfo {
    var pipeType: string
    var name: string
    var segments: seq<SegmentValue>

    constructor ()
      ensures GetType() == "" && GetName() == "" && GetSegments() == []
    {
      pipeType := "";
      name := "";
      segments := [];
    }

    /** The copy-with-name constructor: a copy of `other` renamed to `name`. */
    constructor CopyWithName(other: PipeInfo, name: string)
      ensures Equals(other) && other.Equals(this)
      ensures GetName() == name
      ensures GetType() == other.GetType() && GetSegments() == other.GetSegments()
    {
      pipeType := other.pipeType;
      this.name := name;
      segments := other.segments;
    }

    function GetType(): string
      reads this
    {
      pipeType
    }

    function GetName(): string
      reads this
    {
      name
    }

    function GetSegments(): seq<SegmentValue>
      reads this
    {
      segments
    }

    /** `getPipeSize`: the segment count truncated to `unsigned int`. */
    function GetPipeSize(): (size: nat)
      reads this
      ensures size < UintRange
      ensures |segments| < UintRange ==> size == |segments|
    {
      |segments| % UintRange
    }

    method SetSegments(segments: seq<SegmentValue>)
      modifies this`segments
      ensures GetSegments() == segments
    {
      this.segments := segments;
    }

    method SetType(pipeType: string)
      modifies this`pipeType
      ensures GetType() == pipeType
    {
      this.pipeType := pipeType;
    }

    method SetName(name: string)
      modifies this`name
      ensures GetName() == name
    {
      this.name := name;
    }

    method AddSegment(segment: SegmentValue)
      modifies this`segments
      ensures GetSegments() == old(GetSegments()) + [segment]
      ensures GetPipeSize() == (old(GetPipeSize()) + 1) % UintRange
    {
      segments := segments + [segment];
    }

    /** `operator==(PipeInfo, PipeInfo)`: the type and the segment list; the name and the reliability are ignored. */
    predicate Equals(other: PipeInfo)
      reads this, other
    {
      pipeType == other.pipeType && SegmentsEqual(segments, other.segments)
    }

    /** `PipeInfo::toString`, given the already formatted reliability; the type is printed as the literal "TODO". */
    method ToString(reliabilityText: string) returns (str: string)
      ensures str == "type: " + "TODO" + "\n" + "reliability: " + reliabilityText + "\n" + SegmentsText(segments)
    {
      str := "type: " + "TODO" + "\n";
      str := str + "reliability: " + reliabilityText + "\n";
      ghost var heading := str;
      var i := 0;
      while i < |segments|
        invariant 0 <= i <= |segments|
        invariant str == heading + SegmentsText(segments[..i]) + (if 0 < i < |segments| then SegmentSeparator else "")
      {
        var text := FormatSegment(segments[i]);
        PrintNextSegment(heading, segments, i);
        str := str + text;
        if i != |segments| - 1 {
          str := str + SegmentSeparator;
        }
        i := i + 1;
      }
      assert segments[..i] == segments;
    }
  }

  /** `operator==` on pipes is an equivalence relation that does not look at the name. */
  lemma PipeEqualsIgnoresName(a: PipeInfo, b: PipeInfo, c: PipeInfo)
    ensures a.Equals(a)
    ensures a.Equals(b) ==> b.Equals(a)
    ensures a.Equals(b) && b.Equals(c) ==> a.Equals(c)
    ensures a.Equals(b) <==> a.GetType() == b.GetType() && a.GetSegments() == b.GetSegments()
  {
    SegmentsEqualIsIdentity(a.segments, b.segments);
    SegmentsEqualIsIdentity(a.segments, a.segments);
    SegmentsEqualIsIdentity(b.segments, a.segments);
    SegmentsEqualIsIdentity(b.segments, c.segments);
    SegmentsEqualIsIdentity(a.segments, c.segments);
  }
}
