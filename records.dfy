/**
 * The text format of `FileBackedTaskManager`: one comma-separated record per
 * task (`toString`/`fromString`), Java's `String.split`, the decimal
 * integers of `String.valueOf`, `Integer.parseInt` and `Long.parseLong`, and
 * the enum names of `Task.Type` and `Task.Status`.
 *
 * A start time is written as ISO-8601 local date-time text; here it is the
 * decimal count of minutes on the model's clock, which is just as injective.
 */
module Records {
  import opened Wrappers
  import opened Model

  // ---------------------------------------------------------------------
  // Splitting and joining

  /** Every piece between separators, empty pieces included. */
  function SplitAll(s: string, sep: char): (r: seq<string>)
    ensures |r| >= 1
    decreases |s|
  {
    if s == [] then [""]
    else
      var rest := SplitAll(s[1..], sep);
      if s[0] == sep then [""] + rest
      else [[s[0]] + rest[0]] + rest[1..]
  }

  /** `String.join`: the pieces with one separator between neighbours. */
  function Join(parts: seq<string>, sep: char): string
  {
    if parts == [] then ""
    else if |parts| == 1 then parts[0]
    else parts[0] + [sep] + Join(parts[1..], sep)
  }

  /** Trailing empty pieces removed, as `split` with limit zero does. */
  function DropTrailing(parts: seq<string>): (r: seq<string>)
    ensures |r| <= |parts| && r == parts[..|r|]
    ensures r != [] ==> r[|r| - 1] != ""
    ensures forall i :: |r| <= i < |parts| ==> parts[i] == ""
  {
    if parts == [] then []
    else if parts[|parts| - 1] == "" then DropTrailing(parts[..|parts| - 1])
    else parts
  }

  /**
   * Java's `s.split(sep)`: a string without the separator is its own only
   * piece (even when empty); otherwise all pieces, less the trailing empty
   * ones, which can leave none.
   */
  function JavaSplit(s: string, sep: char): (r: seq<string>)
    ensures sep !in s ==> r == [s]
  {
    if sep !in s then [s] else DropTrailing(SplitAll(s, sep))
  }

  /** No piece of `SplitAll` holds the separator. */
  lemma {:induction false} SplitAllPieces(s: string, sep: char)
    ensures forall i :: 0 <= i < |SplitAll(s, sep)| ==> sep !in SplitAll(s, sep)[i]
    decreases |s|
  {
    if s != [] {
      SplitAllPieces(s[1..], sep);
    }
  }

  /** Joining the pieces gives back the text. */
  lemma {:induction false} JoinSplitAll(s: string, sep: char)
    ensures Join(SplitAll(s, sep), sep) == s
    decreases |s|
  {
    if s != [] {
      var rest := SplitAll(s[1..], sep);
      JoinSplitAll(s[1..], sep);
      if s[0] == sep {
        assert ([""] + rest)[1..] == rest;
      } else {
        var r := [[s[0]] + rest[0]] + rest[1..];
        assert r[1..] == rest[1..];
        if |rest| > 1 {
          assert Join(rest, sep) == rest[0] + [sep] + Join(rest[1..], sep);
        }
      }
    }
  }

  /** Text without the separator joins the first piece of what follows. */
  lemma {:induction false} SplitAllPrefix(p: string, t: string, sep: char)
    requires sep !in p
    ensures SplitAll(p + t, sep) == [p + SplitAll(t, sep)[0]] + SplitAll(t, sep)[1..]
    decreases |p|
  {
    var r := SplitAll(t, sep);
    if p == [] {
      assert p + t == t && p + r[0] == r[0];
      assert [r[0]] + r[1..] == r;
    } else {
      var q := p + t;
      assert q[0] == p[0] && q[1..] == p[1..] + t;
      SplitAllPrefix(p[1..], t, sep);
      var rest := SplitAll(q[1..], sep);
      assert rest == [p[1..] + r[0]] + r[1..];
      assert SplitAll(q, sep) == [[p[0]] + rest[0]] + rest[1..];
      assert [p[0]] + (p[1..] + r[0]) == p + r[0];
    }
  }

  /** Splitting a join of separator-free pieces gives the pieces back. */
  lemma {:induction false} SplitAllJoin(parts: seq<string>, sep: char)
    requires |parts| >= 1
    requires forall i :: 0 <= i < |parts| ==> sep !in parts[i]
    ensures SplitAll(Join(parts, sep), sep) == parts
  {
    if |parts| == 1 {
      SplitAllPrefix(parts[0], "", sep);
      assert parts[0] + "" == parts[0];
    } else {
      var rest := Join(parts[1..], sep);
      SplitAllJoin(parts[1..], sep);
      assert parts[0] + [sep] + rest == parts[0] + ([sep] + rest);
      SplitAllPrefix(parts[0], [sep] + rest, sep);
      assert ([sep] + rest)[1..] == rest;
      assert parts[0] + "" == parts[0];
      assert [parts[0]] + parts[1..] == parts;
    }
  }

  /** With two pieces or more the separator shows, so Java's split drops the trailing empty ones. */
  lemma JavaSplitJoin(parts: seq<string>, sep: char)
    requires |parts| >= 2
    requires forall i :: 0 <= i < |parts| ==> sep !in parts[i]
    ensures JavaSplit(Join(parts, sep), sep) == DropTrailing(parts)
  {
    SplitAllJoin(parts, sep);
    assert Join(parts, sep) == parts[0] + [sep] + Join(parts[1..], sep);
    assert sep in Join(parts, sep) by {
      assert Join(parts, sep)[|parts[0]|] == sep;
    }
  }

  // ---------------------------------------------------------------------
  // Decimal integers

  predicate IsDigit(c: char)
  {
    '0' <= c <= '9'
  }

  predicate AllDigits(s: string)
  {
    forall i :: 0 <= i < |s| ==> IsDigit(s[i])
  }

  function DigitChar(d: nat): (c: char)
    requires d < 10
    ensures IsDigit(c)
  {
    ('0' as int + d) as char
  }

  /** The digits of `n`, most significant first, without leading zeros. */
  function DigitText(n: nat): (r: string)
    ensures |r| >= 1 && AllDigits(r)
  {
    if n < 10 then [DigitChar(n)] else DigitText(n / 10) + [DigitChar(n % 10)]
  }

  /** The value of a run of ASCII digits. */
  function DigitsValue(s: string): nat
    requires AllDigits(s)
  {
    if s == [] then 0
    else DigitsValue(s[..|s| - 1]) * 10 + (s[|s| - 1] as int - '0' as int)
  }

  lemma {:induction false} DigitsValueText(n: nat)
    ensures DigitsValue(DigitText(n)) == n
  {
    if n >= 10 {
      DigitsValueText(n / 10);
      var r := DigitText(n);
      assert r[..|r| - 1] == DigitText(n / 10);
    }
  }

  /** `String.valueOf(int)` and `String.valueOf(long)`: an optional minus, then the digits. */
  function IntText(i: int): (r: string)
    ensures ',' !in r && '\n' !in r && r != []
  {
    if i < 0 then "-" + DigitText(-i) else DigitText(i)
  }

  /**
   * The syntax `Integer.parseInt` and `Long.parseLong` accept, before their
   * range check: an optional `+` or `-`, then one or more digits.
   */
  function ParseInteger(s: string): (r: Option<int>)
    ensures r.Some? ==> s != []
  {
    if s != [] && (s[0] == '-' || s[0] == '+') then
      if |s| > 1 && AllDigits(s[1..]) then
        var v: int := DigitsValue(s[1..]);
        Some(if s[0] == '-' then -v else v)
      else None
    else if s != [] && AllDigits(s) then Some(DigitsValue(s))
    else None
  }

  /** Reading back what `IntText` wrote gives the number. */
  lemma ParseIntegerText(i: int)
    ensures ParseInteger(IntText(i)) == Some(i)
  {
    if i < 0 {
      DigitsValueText(-i);
      assert IntText(i)[1..] == DigitText(-i);
    } else {
      DigitsValueText(i);
    }
  }

  /** A text with a character outside the syntax is refused. */
  lemma ParseIntegerRefuses(s: string, k: nat)
    requires k < |s| && !IsDigit(s[k]) && !(k == 0 && (s[0] == '-' || s[0] == '+'))
    ensures ParseInteger(s) == None
  {
    if s[0] == '-' || s[0] == '+' {
      assert s[1..][k - 1] == s[k];
    }
  }

  const INT_MIN := -0x8000_0000
  const INT_MAX := 0x7fff_ffff
  const LONG_MIN := -0x8000_0000_0000_0000
  const LONG_MAX := 0x7fff_ffff_ffff_ffff

  predicate IsInt(i: int)
  {
    INT_MIN <= i <= INT_MAX
  }

  predicate IsLong(i: int)
  {
    LONG_MIN <= i <= LONG_MAX
  }

  /** `Integer.parseInt`: the syntax above and the 32-bit range. */
  function ParseInt(s: string): (r: Option<int>)
    ensures r.Some? <==> ParseInteger(s).Some? && IsInt(ParseInteger(s).value)
    ensures r.Some? ==> r == ParseInteger(s)
  {
    var n := ParseInteger(s);
    if n.Some? && IsInt(n.value) then n else None
  }

  /** `Long.parseLong`: the syntax above and the 64-bit range. */
  function ParseLong(s: string): (r: Option<int>)
    ensures r.Some? <==> ParseInteger(s).Some? && IsLong(ParseInteger(s).value)
    ensures r.Some? ==> r == ParseInteger(s)
  {
    var n := ParseInteger(s);
    if n.Some? && IsLong(n.value) then n else None
  }

  /** `Duration.ofMinutes(m)` counts seconds in a `long`, so it throws unless `m * 60` fits. */
  predicate FitsMinutes(m: int)
  {
    IsLong(m * 60)
  }

  // ---------------------------------------------------------------------
  // Enum names

  /** `Task.Type.name()`. */
  function KindName(k: Kind): string
  {
    match k
    case TaskKind => "TASK"
    case EpicKind => "EPIC"
    case SubtaskKind => "SUBTASK"
  }

  /** `Task.Type.valueOf`: exactly a name, or the `IllegalArgumentException`. */
  function ParseKind(s: string): (r: Option<Kind>)
    ensures r.Some? ==> KindName(r.value) == s
  {
    if s == "TASK" then Some(TaskKind)
    else if s == "EPIC" then Some(EpicKind)
    else if s == "SUBTASK" then Some(SubtaskKind)
    else None
  }

  lemma ParseKindName(k: Kind)
    ensures ParseKind(KindName(k)) == Some(k)
  {
  }

  /** `Task.Status.name()`. */
  function StatusName(s: Status): string
  {
    match s
    case New => "NEW"
    case InProgress => "IN_PROGRESS"
    case Done => "DONE"
  }

  /** `Task.Status.valueOf`. */
  function ParseStatus(s: string): (r: Option<Status>)
    ensures r.Some? ==> StatusName(r.value) == s
  {
    if s == "NEW" then Some(New)
    else if s == "IN_PROGRESS" then Some(InProgress)
    else if s == "DONE" then Some(Done)
    else None
  }

  lemma ParseStatusName(s: Status)
    ensures ParseStatus(StatusName(s)) == Some(s)
  {
  }

  // ---------------------------------------------------------------------
  // Records

  /** The eight fields `toString` joins. */
  function Fields(t: Task): (f: seq<string>)
    ensures |f| == 8
  {
    [ IntText(t.id), KindName(TypeOf(t)), t.name, StatusName(t.status), t.description,
      if t.part.SubtaskPart? then IntText(t.part.epicId) else "",
      if t.startTime.Some? then IntText(t.startTime.value) else "",
      if t.duration.Some? then IntText(t.duration.value) else "" ]
  }

  /**
   * `toString`: id, type, name, status, description, the epic id of a
   * subtask (empty otherwise), start (empty when absent), duration in
   * minutes (empty when absent).
   */
  function ToRecord(t: Task): string
  {
    Join(Fields(t), ',')
  }

  /** An optional numeric field: empty, a value, or text that throws. */
  datatype Field = Blank | Value(v: int) | Bad

  function AsOption(f: Field): Option<int>
  {
    if f.Value? then Some(f.v) else None
  }

  /** The start field: read only when there are seven pieces and the seventh is not empty. */
  function StartField(parts: seq<string>): Field
  {
    if |parts| > 6 && parts[6] != "" then
      var n := ParseInteger(parts[6]);
      if n.Some? then Value(n.value) else Bad
    else Blank
  }

  /** The duration field: `Duration.ofMinutes(Long.parseLong(…))` when there are eight non-empty pieces. */
  function DurationField(parts: seq<string>): Field
  {
    if |parts| > 7 && parts[7] != "" then
      var n := ParseLong(parts[7]);
      if n.Some? && FitsMinutes(n.value) then Value(n.value) else Bad
    else Blank
  }

  /**
   * The body of `fromString` once the line is split: fewer than five pieces,
   * a bad id, type, status, start or duration, and a subtask with fewer
   * than six pieces or a bad epic id all give null. A task and a subtask
   * take the fields read; an epic takes id, name, description and status
   * and ignores the rest.
   */
  function Assemble(parts: seq<string>): (r: Option<Task>)
    ensures r.Some? ==> |parts| >= 5
  {
    if |parts| < 5 then None
    else
      var id := ParseInt(parts[0]);
      var kind := ParseKind(parts[1]);
      var status := ParseStatus(parts[3]);
      var start := StartField(parts);
      var duration := DurationField(parts);
      if id.None? || kind.None? || status.None? || start.Bad? || duration.Bad? then None
      else match kind.value
        case TaskKind =>
          Some(NewTask(parts[2], parts[4]).(id := id.value, status := status.value,
                                            startTime := AsOption(start), duration := AsOption(duration)))
        case EpicKind =>
          Some(NewEpic(parts[2], parts[4]).(id := id.value, status := status.value))
        case SubtaskKind =>
          if |parts| < 6 then None
          else
            var epicId := ParseInt(parts[5]);
            if epicId.None? then None
            else Some(NewSubtask(parts[2], parts[4], epicId.value).(id := id.value, status := status.value,
                                                                   startTime := AsOption(start), duration := AsOption(duration)))
  }

  /** `fromString` as written: the line split with Java's `split(",")`. */
  function FromRecord(line: string): Option<Task>
  {
    Assemble(JavaSplit(line, ','))
  }

  /** `fromString` as evidently intended: every piece kept, as `split(",", -1)` does. */
  function Decode(line: string): Option<Task>
  {
    Assemble(SplitAll(line, ','))
  }

  /** No separator of the record or of the file in a text field. */
  predicate PlainText(s: string)
  {
    ',' !in s && '\n' !in s
  }

  /** What the format can carry: plain text fields, ids in `int`, durations `Duration.ofMinutes` accepts. */
  predicate WellFormed(t: Task)
  {
    && PlainText(t.name) && PlainText(t.description)
    && IsInt(t.id)
    && (t.part.SubtaskPart? ==> IsInt(t.part.epicId))
    && (t.duration.Some? ==> FitsMinutes(t.duration.value))
  }

  /** What reading a record back yields: the task itself, or for an epic a new epic with its id and status. */
  function Reloaded(t: Task): (r: Task)
    ensures !t.part.EpicPart? ==> r == t
    ensures t.part.EpicPart? ==> r.part.EpicPart? && r.part.subtaskIds == [] && r.part.endTime.None?
    ensures (r.id, r.name, r.description, r.status) == (t.id, t.name, t.description, t.status)
  {
    if t.part.EpicPart? then NewEpic(t.name, t.description).(id := t.id, status := t.status) else t
  }

  lemma FieldsPlain(t: Task)
    requires WellFormed(t)
    ensures forall i :: 0 <= i < 8 ==> ',' !in Fields(t)[i] && '\n' !in Fields(t)[i]
  {
  }

  /** A character that is neither the separator nor in any piece is not in their join. */
  lemma {:induction false} JoinAvoids(parts: seq<string>, sep: char, c: char)
    requires c != sep
    requires forall i :: 0 <= i < |parts| ==> c !in parts[i]
    ensures c !in Join(parts, sep)
  {
    if |parts| > 1 {
      JoinAvoids(parts[1..], sep, c);
    }
  }

  /** A well-formed record is one non-empty line of the file. */
  lemma RecordIsLine(t: Task)
    requires WellFormed(t)
    ensures '\n' !in ToRecord(t) && ToRecord(t) != []
  {
    FieldsPlain(t);
    JoinAvoids(Fields(t), ',', '\n');
    var f := Fields(t);
    assert Join(f, ',') == f[0] + [','] + Join(f[1..], ',');
  }

  /** The intended decoder reads every well-formed record back. */
  lemma DecodeRecord(t: Task)
    requires WellFormed(t)
    ensures Decode(ToRecord(t)) == Some(Reloaded(t))
  {
    FieldsPlain(t);
    SplitAllJoin(Fields(t), ',');
    AssembleFields(t);
  }

  /** The eight fields of a well-formed task assemble back into it. */
  lemma AssembleFields(t: Task)
    requires WellFormed(t)
    ensures Assemble(Fields(t)) == Some(Reloaded(t))
  {
    var f := Fields(t);
    ParseIntegerText(t.id);
    ParseKindName(TypeOf(t));
    ParseStatusName(t.status);
    TimeFields(t);
    if t.part.SubtaskPart? {
      ParseIntegerText(t.part.epicId);
    }
  }

  /** The start and duration fields read back the task's own. */
  lemma TimeFields(t: Task)
    requires WellFormed(t)
    ensures AsOption(StartField(Fields(t))) == t.startTime && !StartField(Fields(t)).Bad?
    ensures AsOption(DurationField(Fields(t))) == t.duration && !DurationField(Fields(t)).Bad?
  {
    if t.startTime.Some? {
      ParseIntegerText(t.startTime.value);
    }
    if t.duration.Some? {
      ParseIntegerText(t.duration.value);
      assert IsLong(t.duration.value);
    }
  }

  /**
   * A record `split(",")` cannot read back: a task or an epic with an
   * empty description, no start and no duration. Its trailing fields are
   * all empty, so four pieces remain.
   */
  predicate Lost(t: Task)
  {
    !t.part.SubtaskPart? && t.description == "" && t.startTime.None? && t.duration.None?
  }

  /** `fromString(toString(t))` as written: the task back, except exactly when it is lost. */
  lemma FromRecordRecord(t: Task)
    requires WellFormed(t)
    ensures FromRecord(ToRecord(t)) == if Lost(t) then None else Some(Reloaded(t))
  {
    var f := Fields(t);
    FieldsPlain(t);
    JavaSplitJoin(f, ',');
    AssembleFields(t);
    var parts := DropTrailing(f);
    if t.duration.Some? {
      assert parts == f;
    } else if t.startTime.Some? {
      assert DropTrailing(f) == DropTrailing(f[..7]) && f[..7][6] != "";
      assert parts == f[..7];
      AssembleAgrees(f, 7);
    } else if !t.part.SubtaskPart? {
      assert f[..7][6] == "" && f[..7][..6][5] == "";
      assert DropTrailing(f) == DropTrailing(f[..5]);
      if t.description != "" {
        assert parts == f[..5];
        AssembleAgrees(f, 5);
      } else {
        assert f[..5][4] == "";
        assert DropTrailing(f) == DropTrailing(f[..4]);
        assert |parts| <= 4;
      }
    } else {
      assert f[..7][6] == "";
      assert DropTrailing(f) == DropTrailing(f[..6]) && f[..6][5] != "";
      assert parts == f[..6];
      AssembleAgrees(f, 6);
    }
  }

  /** Dropping empty trailing fields past the fifth changes nothing `Assemble` reads, except a subtask's sixth. */
  lemma AssembleAgrees(f: seq<string>, n: nat)
    requires 5 <= n <= |f| == 8
    requires forall i :: n <= i < 8 ==> f[i] == ""
    requires n == 5 ==> f[1] != "SUBTASK"
    ensures Assemble(f[..n]) == Assemble(f)
  {
    var p := f[..n];
    assert StartField(p) == StartField(f);
    assert DurationField(p) == DurationField(f);
  }

  /** The record of a bare task with id 1 and name `a`. */
  lemma BareTaskRecord()
    ensures ToRecord(NewTask("a", "").(id := 1)) == "1,TASK,a,NEW,,,,"
  {
    BareTaskFields();
    var f: seq<string> := ["1", "TASK", "a", "NEW", "", "", "", ""];
    assert Join(f[7..], ',') == "";
    assert Join(f[6..], ',') == ",";
    assert Join(f[5..], ',') == ",,";
    assert Join(f[4..], ',') == ",,,";
    assert Join(f[3..], ',') == "NEW,,,,";
    assert Join(f[2..], ',') == "a,NEW,,,,";
    assert Join(f[1..], ',') == "TASK,a,NEW,,,,";
  }

  lemma BareTaskFields()
    ensures Fields(NewTask("a", "").(id := 1)) == ["1", "TASK", "a", "NEW", "", "", "", ""]
  {
    assert DigitText(1) == [DigitChar(1)];
  }

  /** A plain task with nothing but a name is one such record: lost as written, read back as intended. */
  lemma BareTaskIsLost()
    ensures FromRecord(ToRecord(NewTask("a", "").(id := 1))) == None
    ensures Decode(ToRecord(NewTask("a", "").(id := 1))) == Some(NewTask("a", "").(id := 1))
  {
    var t := NewTask("a", "").(id := 1);
    assert PlainText(t.name) && PlainText(t.description) && IsInt(t.id);
    assert Lost(t) && Reloaded(t) == t;
    FromRecordRecord(t);
    DecodeRecord(t);
  }
}
