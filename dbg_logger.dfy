/** DebugLogging: the prefix the debug logger puts before every message.
    A timestamp (the frame and the number of the log within it while the
    game runs, a UTC time in the editor otherwise), the caller's name and
    type as the mode flags select, and the message. The engine's clock, its
    frame counter and the editor flags are parameters; the Unity console
    the line goes to is not part of this model. */
module DebugLogging {

  /** DBGLogger.Element: the parts of the prefix, by bit position. */
  datatype Element = Timestamp | Name | CallerType

  function BitOf(e: Element): (b: nat)
    ensures b < 3
  {
    match e
    case Timestamp => 0
    case Name => 1
    case CallerType => 2
  }

  function Pow2(n: nat): (p: nat)
    ensures p >= 1
  {
    if n == 0 then 1 else 2 * Pow2(n - 1)
  }

  /** DBGLogger.Mode. */
  const TimestampMode := 1
  const TimestampNameMode := 3
  const TimestampCallerTypeMode := 5
  const EverythingMode := 7

  /** DBGLogger.IsModeElementSet: (modeFlags & (1 << element)) > 0, that is,
      bit `element` of the two's complement flags; Dafny's division by a
      positive power of two rounds down, which is the arithmetic shift. */
  function IsModeElementSet(modeFlags: int, e: Element): bool {
    (modeFlags / Pow2(BitOf(e))) % 2 == 1
  }

  /** The flags with exactly the given elements set. */
  function Flags(timestamp: bool, name: bool, callerType: bool): (f: int)
    ensures 0 <= f < 8
  {
    (if timestamp then 1 else 0) + (if name then 2 else 0) + (if callerType then 4 else 0)
  }

  /** Each element's bit reads back what the flags were built with. */
  lemma FlagsReadBack(timestamp: bool, name: bool, callerType: bool)
    ensures IsModeElementSet(Flags(timestamp, name, callerType), Timestamp) == timestamp
    ensures IsModeElementSet(Flags(timestamp, name, callerType), Name) == name
    ensures IsModeElementSet(Flags(timestamp, name, callerType), CallerType) == callerType
  {
    assert Pow2(1) == 2 && Pow2(2) == 4 by {
      assert Pow2(0) == 1;
    }
  }

  /** The Mode values set the elements their names list, and no other. */
  lemma ModeValues()
    ensures TimestampMode == Flags(true, false, false)
    ensures TimestampNameMode == Flags(true, true, false)
    ensures TimestampCallerTypeMode == Flags(true, false, true)
    ensures EverythingMode == Flags(true, true, true)
  {
  }

  /** Every value in [0, 8) is the flags of its own three bits: the
      elements are independent and nothing else is encoded. */
  lemma FlagsCoverThreeBits(f: int)
    requires 0 <= f < 8
    ensures f == Flags(IsModeElementSet(f, Timestamp), IsModeElementSet(f, Name), IsModeElementSet(f, CallerType))
  {
    assert Pow2(1) == 2 && Pow2(2) == 4 by {
      assert Pow2(0) == 1;
    }
  }

  // ---------------------------------------------------------------------------
  // The caller's name and type

  /** The calling object: null, a System.Type (a call from a static
      context), a UnityEngine.Object (alive or destroyed, with its name), or
      any other object. Types are given by their full names. */
  datatype Caller =
    | NullCaller
    | TypeObject(fullName: string)
    | UnityObject(alive: bool, name: string, typeName: string)
    | OtherObject(typeName: string)

  /** FORMAT_CALLER_NAME and FORMAT_CALLER_TYPE. */
  function Quoted(s: string): string { "'" + s + "'" }
  function Angled(s: string): string { "<" + s + ">" }

  /** DBGLogger.GetCallerName: empty without the Name bit, for a null caller
      and for a type; a Unity object's name in quotes (empty quotes once it
      was destroyed); any other object's type in angle brackets, quoted. */
  function GetCallerName(caller: Caller, modeFlags: int): (r: string)
    ensures r == "" <==> !IsModeElementSet(modeFlags, Name) || caller.NullCaller? || caller.TypeObject?
    ensures r != "" ==> |r| >= 2 && r[0] == '\'' && r[|r| - 1] == '\''
    ensures r != "" && caller.UnityObject? ==> r[1..|r| - 1] == (if caller.alive then caller.name else "")
    ensures r != "" && caller.OtherObject? ==> r[1..|r| - 1] == Angled(caller.typeName)
  {
    if !IsModeElementSet(modeFlags, Name) then ""
    else match caller
      case NullCaller => ""
      case TypeObject(_) => ""
      case UnityObject(alive, name, _) => if alive then Quoted(name) else Quoted("")
      case OtherObject(typeName) => Quoted(Angled(typeName))
  }

  /** DBGLogger.GetCallerType: empty without the CallerType bit, "<NULL>"
      for a null caller, and otherwise the type in angle brackets: the type
      itself for a System.Type, the object's runtime type for any other. */
  function GetCallerType(caller: Caller, modeFlags: int): (r: string)
    ensures r == "" <==> !IsModeElementSet(modeFlags, CallerType)
    ensures r != "" ==> |r| >= 2 && r[0] == '<' && r[|r| - 1] == '>'
    ensures r != "" ==> r[1..|r| - 1] == match caller
                                          case NullCaller => "NULL"
                                          case TypeObject(fullName) => fullName
                                          case UnityObject(_, _, typeName) => typeName
                                          case OtherObject(typeName) => typeName
  {
    if !IsModeElementSet(modeFlags, CallerType) then ""
    else match caller
      case NullCaller => Angled("NULL")
      case TypeObject(fullName) => Angled(fullName)
      case UnityObject(_, _, typeName) => Angled(typeName)
      case OtherObject(typeName) => Angled(typeName)
  }

  // ---------------------------------------------------------------------------
  // GetObjectTypeName

  /** String.LastIndexOf for one character: the last position holding it,
      -1 when there is none. */
  function LastIndexOf(s: string, c: char): (r: int)
    ensures -1 <= r < |s|
    ensures r >= 0 ==> s[r] == c
    ensures forall j :: r < j < |s| ==> s[j] != c
    decreases |s|
  {
    if |s| == 0 then -1
    else if s[|s| - 1] == c then |s| - 1
    else LastIndexOf(s[..|s| - 1], c)
  }

  /** DBGLogger.GetObjectTypeName on the type's full name: what follows the
      last '.', or the whole name without one. */
  function GetObjectTypeName(fullName: string): (r: string)
    ensures |r| <= |fullName| && r == fullName[|fullName| - |r|..]
    ensures '.' !in r
    ensures |r| < |fullName| ==> fullName[|fullName| - |r| - 1] == '.'
  {
    fullName[LastIndexOf(fullName, '.') + 1..]
  }

  /** The short name is the whole name exactly when it has no '.'. */
  lemma ShortNameIsWholeIffNoDot(fullName: string)
    ensures GetObjectTypeName(fullName) == fullName <==> '.' !in fullName
  {
    if '.' in fullName {
      var j :| 0 <= j < |fullName| && fullName[j] == '.';
      assert LastIndexOf(fullName, '.') >= j;
    }
  }

  /** The short name of a namespaced name is that of its last part. */
  lemma {:induction false} ShortNameOfQualified(prefix: string, last: string)
    requires '.' !in last
    ensures GetObjectTypeName(prefix + "." + last) == last
  {
    var s := prefix + "." + last;
    var i := LastIndexOf(s, '.');
    assert s[|prefix|] == '.';
    assert forall j :: |prefix| < j < |s| ==> s[j] == last[j - |prefix| - 1];
    assert i == |prefix|;
    assert s[i + 1..] == last;
  }

  // ---------------------------------------------------------------------------
  // The timestamp and the line

  function DigitChar(d: nat): char
    requires d < 10
  {
    "0123456789"[d]
  }

  function DigitValue(c: char): int {
    c as int - '0' as int
  }

  /** The decimal text of a natural number, as int.ToString writes it. */
  function NatToString(n: nat): (s: string)
    ensures |s| >= 1
    ensures forall i :: 0 <= i < |s| ==> '0' <= s[i] <= '9'
    decreases n
  {
    if n < 10 then [DigitChar(n)] else NatToString(n / 10) + [DigitChar(n % 10)]
  }

  /** The value of a string of decimal digits. */
  function DecimalValue(s: string): int
    decreases |s|
  {
    if |s| == 0 then 0 else 10 * DecimalValue(s[..|s| - 1]) + DigitValue(s[|s| - 1])
  }

  /** int.ToString for any int: a minus sign before the magnitude. */
  function IntToString(n: int): (s: string)
    ensures |s| >= 1
    ensures n >= 0 ==> '-' !in s
    ensures n < 0 ==> s[0] == '-' && '-' !in s[1..]
  {
    if n >= 0 then NatToString(n) else "-" + NatToString(-n)
  }

  /** Reading the text back gives the number. */
  lemma {:induction false} NatToStringReadsBack(n: nat)
    ensures DecimalValue(NatToString(n)) == n
    decreases n
  {
    var s := NatToString(n);
    if n < 10 {
      assert s[..0] == [];
    } else {
      NatToStringReadsBack(n / 10);
      assert s[..|s| - 1] == NatToString(n / 10);
    }
  }

  /** DBGLogger.GetTimeStamp: while the game runs, the frame and the number
      of the log within it, "[frame.count]"; in the editor when not playing,
      the UTC time, already formatted, in brackets. */
  function GetTimeStamp(isEditor: bool, isPlaying: bool, frameCount: int, logCountFrame: int,
                        utcNow: string): (r: string)
    ensures |r| >= 2 && r[0] == '[' && r[|r| - 1] == ']'
    ensures !isEditor || isPlaying ==>
              r == "[" + IntToString(frameCount) + "." + IntToString(logCountFrame) + "]"
    ensures isEditor && !isPlaying ==> r[1..|r| - 1] == utcNow
  {
    if !isEditor || isPlaying then "[" + IntToString(frameCount) + "." + IntToString(logCountFrame) + "]"
    else "[" + utcNow + "]"
  }

  /** DBGLogger.Format: timestamp, a space, caller name, caller type, a
      colon and a space, and the message. */
  function Format(timestamp: string, message: string, caller: Caller, modeFlags: int): (r: string)
    ensures |r| == |timestamp| + 1 + |GetCallerName(caller, modeFlags) + GetCallerType(caller, modeFlags)| + 2 + |message|
    ensures r[..|timestamp|] == timestamp && r[|timestamp|] == ' '
    ensures r[|r| - |message| - 2..] == ": " + message
    ensures r[|timestamp| + 1..|r| - |message| - 2] == GetCallerName(caller, modeFlags) + GetCallerType(caller, modeFlags)
  {
    var head := timestamp + " ";
    var middle := GetCallerName(caller, modeFlags) + GetCallerType(caller, modeFlags);
    var tail := ": " + message;
    ThreeParts(head, middle, tail);
    head + middle + tail
  }

  /** Where the parts of a concatenation of three lie. */
  lemma ThreeParts(a: string, b: string, c: string)
    ensures (a + b + c)[..|a|] == a
    ensures (a + b + c)[|a|..|a| + |b|] == b
    ensures (a + b + c)[|a| + |b|..] == c
  {
  }

  /** With the Timestamp mode only, nothing stands between the timestamp
      and the message but " : ", whoever the caller is. */
  lemma TimestampOnlyLine(timestamp: string, message: string, caller: Caller)
    ensures Format(timestamp, message, caller, TimestampMode) == timestamp + " : " + message
  {
    FlagsReadBack(true, false, false);
  }

  // ---------------------------------------------------------------------------
  // The per-frame log counter

  /** UpdateLogCounter's static counters as a value. */
  datatype Counter = Counter(lastLogFrame: int, logCountFrame: int)

  /** UpdateLogCounter: nothing in the editor when not playing; the first
      log of a later frame records it and counts 0; any other log counts
      one more. */
  function CounterStep(c: Counter, isEditor: bool, isPlaying: bool, frameCount: int): Counter {
    if isEditor && !isPlaying then c
    else if c.lastLogFrame < frameCount then Counter(frameCount, 0)
    else c.(logCountFrame := c.logCountFrame + 1)
  }

  /** The counter after a log in each of the given frames, while playing. */
  function CounterRun(c: Counter, frames: seq<int>): Counter
    decreases |frames|
  {
    if |frames| == 0 then c else CounterRun(CounterStep(c, false, true, frames[0]), frames[1..])
  }

  /** The logs of one frame are numbered from 0: after k logs in a frame
      later than the last one recorded, the frame is recorded and the count
      is k - 1; more logs in a recorded frame add to its count. */
  lemma {:induction false} LogsOfAFrameCountFromZero(c: Counter, frame: int, k: nat)
    requires k >= 1 && c.lastLogFrame < frame
    ensures CounterRun(c, seq(k, _ => frame)) == Counter(frame, k - 1)
  {
    var frames := seq(k, _ => frame);
    assert CounterStep(c, false, true, frames[0]) == Counter(frame, 0);
    SameFrameAdds(Counter(frame, 0), frame, k - 1);
    assert frames[1..] == seq(k - 1, _ => frame);
  }

  lemma {:induction false} SameFrameAdds(c: Counter, frame: int, k: nat)
    requires c.lastLogFrame == frame
    ensures CounterRun(c, seq(k, _ => frame)) == c.(logCountFrame := c.logCountFrame + k)
    decreases k
  {
    if k > 0 {
      var frames := seq(k, _ => frame);
      assert frames[1..] == seq(k - 1, _ => frame);
      SameFrameAdds(c.(logCountFrame := c.logCountFrame + 1), frame, k - 1);
    }
  }

  /** DBGLogger's static log counter. */
  class LogCounter {
    var lastLogFrame: int
    var logCountFrame: int

    function State(): Counter
      reads this
    {
      Counter(lastLogFrame, logCountFrame)
    }

    /** The statics' zero defaults. */
    constructor ()
      ensures lastLogFrame == 0 && logCountFrame == 0
    {
      lastLogFrame := 0;
      logCountFrame := 0;
    }

    /** DBGLogger.UpdateLogCounter with the engine's flags and frame
        counter as parameters. */
    method UpdateLogCounter(isEditor: bool, isPlaying: bool, frameCount: int)
      modifies this
      ensures State() == CounterStep(old(State()), isEditor, isPlaying, frameCount)
      ensures isEditor && !isPlaying ==> State() == old(State())
      ensures !(isEditor && !isPlaying) && old(lastLogFrame) < frameCount ==>
                lastLogFrame == frameCount && logCountFrame == 0
      ensures !(isEditor && !isPlaying) && old(lastLogFrame) >= frameCount ==>
                lastLogFrame == old(lastLogFrame) && logCountFrame == old(logCountFrame) + 1
    {
      if isEditor && !isPlaying {
        return;
      }
      if lastLogFrame < frameCount {
        lastLogFrame := frameCount;
        logCountFrame := 0;
      } else {
        logCountFrame := logCountFrame + 1;
      }
    }
  }
}
