/**
 * The topic scheme shared by the bridge and its external clients:
 * a command request or response topic ends in `<device>/<command>/<method>`
 * after an arbitrary prefix, and a command query topic ends in the device name.
 */
module TopicScheme {
  import opened GoStrings
  import opened Wrappers

  /** The three trailing levels of a command topic, as raw segments. */
  datatype CommandAddress = CommandAddress(device: string, command: string, methodName: string)

  /** The device-name keyword meaning "every device" (`common.All`). */
  const AllKeyword: string := "all"

  predicate SlashFree(a: CommandAddress) {
    NoSlash(a.device) && NoSlash(a.command) && NoSlash(a.methodName)
  }

  /** `device/command/method`, the trailing part of a command topic. */
  function Trailer(a: CommandAddress): string {
    a.device + [Slash] + a.command + [Slash] + a.methodName
  }

  /**
   * The third-last, second-last and last segments of the topic; there are
   * none when the topic has fewer than two separators.
   */
  function ParseCommandTopic(topic: string): (r: Option<CommandAddress>)
    ensures r.None? <==> Count(topic) < 2
    ensures r.Some? ==> SlashFree(r.value)
  {
    var levels := Split(topic);
    var n := |levels|;
    if n < 3 then None
    else Some(CommandAddress(levels[n - 3], levels[n - 2], levels[n - 1]))
  }

  lemma JoinTrailer(a: CommandAddress)
    ensures Join([a.device, a.command, a.methodName]) == Trailer(a)
  {
    assert [a.device, a.command, a.methodName][1..] == [a.command, a.methodName];
    assert [a.command, a.methodName][1..] == [a.methodName];
    assert Join([a.command, a.methodName]) == a.command + [Slash] + a.methodName;
  }

  /** Whatever the prefix, the last three levels are the device, command and method. */
  lemma ParseComposed(prefix: string, a: CommandAddress)
    requires SlashFree(a)
    ensures ParseCommandTopic(Trailer(a)) == Some(a)
    ensures ParseCommandTopic(prefix + [Slash] + Trailer(a)) == Some(a)
  {
    var tail := [a.device, a.command, a.methodName];
    JoinTrailer(a);
    SplitOfJoin(tail);
    SplitAround(prefix, Trailer(a));
    var levels := Split(prefix) + tail;
    assert levels[|levels| - 3..] == tail;
  }

  /** Joining nonempty lists of segments joins their two joins with a separator. */
  lemma {:induction false} JoinAppend(xs: seq<string>, ys: seq<string>)
    requires |xs| >= 1 && |ys| >= 1
    ensures Join(xs + ys) == Join(xs) + [Slash] + Join(ys)
    decreases |xs|
  {
    if |xs| > 1 {
      JoinAppend(xs[1..], ys);
      assert (xs + ys)[1..] == xs[1..] + ys;
    } else {
      assert (xs + ys)[1..] == ys;
    }
  }

  /** Levels ending in `d`, `c`, `m` join to the earlier levels joined, then `/d/c/m`. */
  lemma JoinEndingInTrailer(levels: seq<string>, a: CommandAddress)
    requires |levels| >= 3 && levels[|levels| - 3..] == [a.device, a.command, a.methodName]
    ensures |levels| == 3 ==> Join(levels) == Trailer(a)
    ensures |levels| > 3 ==> Join(levels) == Join(levels[..|levels| - 3]) + [Slash] + Trailer(a)
  {
    var n := |levels|;
    var tail := levels[n - 3..];
    JoinTrailer(a);
    if n > 3 {
      var init := levels[..n - 3];
      assert init + tail == levels;
      JoinAppend(init, tail);
    } else {
      assert levels == tail;
    }
  }

  /**
   * A parsed topic is the trailer alone (exactly two separators) or the
   * trailer after the remaining levels joined back together.
   */
  lemma ParseShape(topic: string, a: CommandAddress)
    requires ParseCommandTopic(topic) == Some(a)
    ensures |Split(topic)| == 3 ==> topic == Trailer(a)
    ensures |Split(topic)| > 3 ==> topic == Join(Split(topic)[..|Split(topic)| - 3]) + [Slash] + Trailer(a)
  {
    var levels := Split(topic);
    var n := |levels|;
    assert levels[n - 3..] == [levels[n - 3], levels[n - 2], levels[n - 1]];
    JoinOfSplit(topic);
    JoinEndingInTrailer(levels, a);
  }

  /** The external response topic: the configured prefix followed by the three raw segments. */
  function ResponseTopic(prefix: string, a: CommandAddress): (r: string)
    ensures r == prefix + [Slash] + Trailer(a)
  {
    JoinTrailer(a);
    JoinAppend([prefix], [a.device, a.command, a.methodName]);
    Join([prefix, a.device, a.command, a.methodName])
  }

  /** A client parsing the response topic recovers the very segments of its request. */
  lemma ResponseTopicRoundTrip(prefix: string, request: string)
    requires ParseCommandTopic(request).Some?
    ensures ParseCommandTopic(ResponseTopic(prefix, ParseCommandTopic(request).value))
         == ParseCommandTopic(request)
  {
    ParseComposed(prefix, ParseCommandTopic(request).value);
  }

  /** The method level accepts `get` and `set` in any letter case. */
  predicate IsAllowedMethod(m: string)
    ensures IsAllowedMethod(m) ==> |m| == 3
  {
    EqualFold(m, "get") || EqualFold(m, "set")
  }

  lemma AllowedMethodIff(m: string)
    ensures IsAllowedMethod(m) <==> Lower(m) == "get" || Lower(m) == "set"
  {
    EqualFoldIffSameLower(m, "get");
    EqualFoldIffSameLower(m, "set");
    assert Lower("get") == "get";
    assert Lower("set") == "set";
  }

  /** The last level of a topic (there always is one). */
  function LastSegment(topic: string): (r: string)
    ensures NoSlash(r)
  {
    var levels := Split(topic);
    levels[|levels| - 1]
  }

  /** The device name is the last level, whatever precedes it. */
  lemma LastSegmentOf(prefix: string, device: string)
    requires NoSlash(device)
    ensures LastSegment(device) == device
    ensures LastSegment(prefix + [Slash] + device) == device
  {
    SplitOfSegment(device);
    SplitAround(prefix, device);
  }

  /**
   * The device name of a command query: the last topic level, with every
   * letter-case variant of the "all" keyword replaced by the keyword itself.
   */
  function QueryDeviceName(topic: string): (r: string)
    ensures r == AllKeyword <==> EqualFold(LastSegment(topic), AllKeyword)
    ensures r != AllKeyword ==> r == LastSegment(topic)
  {
    var deviceName := LastSegment(topic);
    EqualFoldIffSameLower(deviceName, AllKeyword);
    if EqualFold(deviceName, AllKeyword) then AllKeyword else deviceName
  }

  /** Query topics whose last levels agree up to letter case agree on meaning "all". */
  lemma QueryAllIgnoresCase(t1: string, t2: string)
    requires EqualFold(LastSegment(t1), LastSegment(t2))
    ensures QueryDeviceName(t1) == AllKeyword <==> QueryDeviceName(t2) == AllKeyword
  {
    EqualFoldIffSameLower(LastSegment(t1), LastSegment(t2));
    EqualFoldIffSameLower(LastSegment(t1), AllKeyword);
    EqualFoldIffSameLower(LastSegment(t2), AllKeyword);
  }
}
