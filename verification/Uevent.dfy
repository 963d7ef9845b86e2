/** Reading ACTION, SUBSYSTEM and DEVNAME out of a kernel uevent: a message of
NUL-terminated records in a larger, zero-filled buffer. */
module Uevent {

  datatype Option<T> = None | Some(value: T)

  const NUL := '\0'
  const ACTION := "ACTION="
  const SUBSYSTEM := "SUBSYSTEM="
  const DEVNAME := "DEVNAME="

  // ---------------------------------------------------------------- searching a string

  predicate OccursAt(s: string, key: string, i: nat) {
    i + |key| <= |s| && s[i..i + |key|] == key
  }

  /** Where key first occurs in s, as strstr finds it. */
  function Strstr(s: string, key: string): (r: Option<nat>)
    ensures r.Some? ==> OccursAt(s, key, r.value) && forall i: nat :: i < r.value ==> !OccursAt(s, key, i)
    ensures r.None? ==> forall i: nat :: !OccursAt(s, key, i)
  {
    StrstrFrom(s, key, 0)
  }

  function StrstrFrom(s: string, key: string, from: nat): (r: Option<nat>)
    ensures r.Some? ==> OccursAt(s, key, r.value) && forall i: nat :: from <= i < r.value ==> !OccursAt(s, key, i)
    ensures r.None? ==> forall i: nat :: from <= i ==> !OccursAt(s, key, i)
    decreases |s| - from
  {
    if OccursAt(s, key, from) then Some(from)
    else if from >= |s| then None
    else StrstrFrom(s, key, from + 1)
  }

  predicate NulFree(s: string) {
    forall i :: 0 <= i < |s| ==> s[i] != NUL
  }

  /** The rest of str after the first occurrence of key, if str is there, and that
      occurrence ends within the first len characters.  None stands for null. */
  function V4L2GetUsbValue(key: Option<string>, str: Option<string>, len: int): (text: Option<string>)
    ensures text.Some? <==>
      && key.Some? && str.Some? && len > 0
      && exists i: nat :: OccursAt(str.value, key.value, i) && i + |key.value| <= len
    ensures text.Some? ==>
      exists i: nat ::
        && OccursAt(str.value, key.value, i) && (forall j: nat :: j < i ==> !OccursAt(str.value, key.value, j))
        && text.value == str.value[i + |key.value|..]
  {
    if key.None? || str.None? || len <= 0 || |key.value| > len then None
    else
      var pos := Strstr(str.value, key.value);
      if pos.None? then None
      else if pos.value + |key.value| > len then None
      else Some(str.value[pos.value + |key.value|..])
  }

  // ---------------------------------------------------------------- records

  /** strlen(buf + pos), as far as the buffer goes: reaching its end, strlen reads past it. */
  function Strlen(buf: string, pos: nat): (n: nat)
    requires pos <= |buf|
    ensures pos + n <= |buf| && NulFree(buf[pos..pos + n])
    ensures pos + n < |buf| ==> buf[pos + n] == NUL
    decreases |buf| - pos
  {
    if pos == |buf| || buf[pos] == NUL then 0
    else
      var n := 1 + Strlen(buf, pos + 1);
      assert buf[pos..pos + n] == [buf[pos]] + buf[pos + 1..pos + n];
      n
  }

  /** The records the parser stops at, in order, from pos on. */
  function Visited(buf: string, len: nat, pos: nat): seq<string>
    requires pos <= len <= |buf|
    decreases len - pos
  {
    var n := Strlen(buf, pos);
    if pos + n < len && n > 0 then [buf[pos..pos + n]] + Visited(buf, len, pos + n + 1) else []
  }

  /** From pos on, the parser reads past the end of the buffer. */
  predicate Overruns(buf: string, len: nat, pos: nat)
    requires pos <= len <= |buf|
    decreases len - pos
  {
    var n := Strlen(buf, pos);
    if pos + n < len && n > 0 then Overruns(buf, len, pos + n + 1) else pos + n == |buf|
  }

  /** Every record followed by a NUL. */
  function Print(records: seq<string>): string {
    if records == [] then "" else records[0] + [NUL] + Print(records[1..])
  }

  predicate AllNulFree(records: seq<string>) {
    forall k :: 0 <= k < |records| ==> NulFree(records[k])
  }

  predicate AllNonEmpty(records: seq<string>) {
    forall k :: 0 <= k < |records| ==> records[k] != ""
  }

  /** The records before the first empty one. */
  function UntilEmpty(records: seq<string>): seq<string> {
    if records == [] || records[0] == "" then [] else [records[0]] + UntilEmpty(records[1..])
  }

  lemma {:induction false} StrlenIs(buf: string, pos: nat, n: nat)
    requires pos + n < |buf| && NulFree(buf[pos..pos + n]) && buf[pos + n] == NUL
    ensures Strlen(buf, pos) == n
    decreases n
  {
    if n > 0 {
      assert buf[pos] == buf[pos..pos + n][0];
      assert buf[pos + 1..pos + n] == buf[pos..pos + n][1..];
      StrlenIs(buf, pos + 1, n - 1);
    }
  }

  lemma VisitedStep(buf: string, len: nat, pos: nat)
    requires pos <= len <= |buf|
    ensures
      var n := Strlen(buf, pos);
      && Visited(buf, len, pos) ==
           (if pos + n < len && n > 0 then [buf[pos..pos + n]] + Visited(buf, len, pos + n + 1) else [])
      && Overruns(buf, len, pos) ==
           (if pos + n < len && n > 0 then Overruns(buf, len, pos + n + 1) else pos + n == |buf|)
  {
  }

  /** Where the message goes on with a record, a NUL and the rest. */
  lemma RecordAt(buf: string, len: nat, pos: nat, record: string, rest: string)
    requires pos <= len <= |buf| && NulFree(record) && buf[pos..len] == record + [NUL] + rest
    ensures Strlen(buf, pos) == |record| && pos + |record| + 1 <= len
    ensures buf[pos..pos + |record|] == record && buf[pos + |record| + 1..len] == rest
  {
    hide Strlen;
    var n := |record|;
    assert buf[pos..pos + n] == buf[pos..len][..n];
    assert buf[pos + n] == buf[pos..len][n];
    assert buf[pos + n + 1..len] == buf[pos..len][n + 1..];
    StrlenIs(buf, pos, n);
  }

  lemma {:induction false} StrlenOpen(buf: string, pos: nat)
    requires pos <= |buf|
    ensures pos + Strlen(buf, pos) == |buf| <==> NulFree(buf[pos..])
    decreases |buf| - pos
  {
    if pos < |buf| && buf[pos] != NUL {
      StrlenOpen(buf, pos + 1);
      assert buf[pos..] == [buf[pos]] + buf[pos + 1..];
    } else if pos < |buf| {
      assert buf[pos..][0] == NUL;
    }
  }

  lemma {:induction false} StrlenAtLeast(buf: string, pos: nat, n: nat)
    requires pos + n <= |buf| && NulFree(buf[pos..pos + n])
    ensures Strlen(buf, pos) >= n
    decreases n
  {
    if n > 0 {
      assert buf[pos] == buf[pos..pos + n][0];
      assert buf[pos + 1..pos + n] == buf[pos..pos + n][1..];
      StrlenAtLeast(buf, pos + 1, n - 1);
    }
  }

  /** Where only the cut-off record is left. */
  lemma TailOnly(buf: string, len: nat, pos: nat)
    requires pos <= len <= |buf| && NulFree(buf[pos..len])
    ensures pos + Strlen(buf, pos) >= len
    ensures pos + Strlen(buf, pos) == |buf| <==> NulFree(buf[len..])
  {
    hide Strlen, NulFree;
    StrlenAtLeast(buf, pos, len - pos);
    StrlenOpen(buf, pos);
    assert buf[pos..] == buf[pos..len] + buf[len..];
    NulFreeConcat(buf[pos..len], buf[len..]);
  }

  /** A message is a list of NUL-terminated records, possibly with a last one that the
      end of the message cuts off.  Whatever they are, the parser visits each
      terminated record once and in order, up to the first empty one.  It reads past the
      end of the buffer if and only if no record is empty and no NUL follows the last
      terminated one, in the message or behind it. */
  lemma {:induction false} VisitsEveryRecord(buf: string, len: nat, pos: nat, records: seq<string>, tail: string)
    requires pos <= len <= |buf|
    requires buf[pos..len] == Print(records) + tail && AllNulFree(records) && NulFree(tail)
    ensures Visited(buf, len, pos) == UntilEmpty(records)
    ensures Overruns(buf, len, pos) <==> AllNonEmpty(records) && NulFree(buf[len..])
    decreases |records|
  {
    hide Visited, Overruns, Strlen, NulFree;
    VisitedStep(buf, len, pos);
    if records == [] {
      assert buf[pos..len] == tail;
      TailOnly(buf, len, pos);
    } else {
      var rest := Print(records[1..]) + tail;
      assert buf[pos..len] == records[0] + [NUL] + rest;
      RecordAt(buf, len, pos, records[0], rest);
      if records[0] != "" {
        VisitsEveryRecord(buf, len, pos + |records[0]| + 1, records[1..], tail);
      }
    }
  }

  lemma NulFreeConcat(a: string, b: string)
    ensures NulFree(a + b) <==> NulFree(a) && NulFree(b)
  {
    assert forall i :: 0 <= i < |a| ==> (a + b)[i] == a[i];
    assert forall i :: 0 <= i < |b| ==> (a + b)[|a| + i] == b[i];
  }

  /** A zero behind the message is enough to keep the parser inside the buffer. */
  lemma {:induction false} ZeroStopsParser(buf: string, len: nat, pos: nat)
    requires pos <= len < |buf| && buf[len] == NUL
    ensures !Overruns(buf, len, pos)
    decreases len - pos
  {
    VisitedStep(buf, len, pos);
    StrlenOpen(buf, pos);
    assert buf[pos..][len - pos] == NUL;
    var n := Strlen(buf, pos);
    if pos + n < len && n > 0 {
      ZeroStopsParser(buf, len, pos + n + 1);
    }
  }

  // ---------------------------------------------------------------- the text after a key

  /** What one record says about key; empty if nothing. */
  function TextIn(record: string, key: string): string {
    var text := V4L2GetUsbValue(Some(key), Some(record), |record|);
    if text.Some? then text.value else ""
  }

  lemma TextIs(record: string, key: string)
    ensures
      var text := V4L2GetUsbValue(Some(key), Some(record), |record|);
      TextIn(record, key) == if text.None? then "" else text.value
  {
  }

  /** The text after key in the first record where that text is not empty. */
  function FirstText(records: seq<string>, key: string): string {
    if records == [] then ""
    else if TextIn(records[0], key) != "" then TextIn(records[0], key)
    else FirstText(records[1..], key)
  }

  lemma {:induction false} FirstTextMeans(records: seq<string>, key: string) returns (k: nat)
    ensures k <= |records|
    ensures forall j :: 0 <= j < k ==> TextIn(records[j], key) == ""
    ensures FirstText(records, key) == (if k < |records| then TextIn(records[k], key) else "")
    ensures k < |records| ==> FirstText(records, key) != ""
  {
    k := 0;
    if records != [] && TextIn(records[0], key) == "" {
      var j := FirstTextMeans(records[1..], key);
      k := j + 1;
    }
  }

  lemma {:induction false} FirstTextSplit(a: seq<string>, b: seq<string>, key: string)
    ensures FirstText(a + b, key) == if FirstText(a, key) != "" then FirstText(a, key) else FirstText(b, key)
  {
    if a == [] {
      assert a + b == b;
    } else {
      assert (a + b)[1..] == a[1..] + b;
      FirstTextSplit(a[1..], b, key);
    }
  }

  lemma TextOfPrinted(key: string, value: string)
    requires key != ""
    ensures TextIn(key + value, key) == value
  {
    assert (key + value)[0..|key|] == key;
    assert OccursAt(key + value, key, 0);
    assert (key + value)[|key|..] == value;
  }

  /** A printed KEY=VALUE record with a value is read back if and only if no record
      before it says anything else about the key. */
  lemma PrintedValueFound(before: seq<string>, key: string, value: string, after: seq<string>)
    requires key != "" && value != ""
    ensures FirstText(before + [key + value] + after, key) == value
       <==> FirstText(before, key) in {"", value}
  {
    hide FirstText, TextIn;
    TextOfPrinted(key, value);
    assert before + [key + value] + after == before + ([key + value] + after);
    FirstTextSplit(before, [key + value] + after, key);
    FirstTextSplit([key + value], after, key);
    FirstTextOne(key + value, key);
  }

  lemma FirstTextOne(record: string, key: string)
    ensures FirstText([record], key) == TextIn(record, key)
  {
  }

  lemma {:induction false} NoKeyNoText(records: seq<string>, key: string)
    requires forall k :: 0 <= k < |records| ==> KeyFree(records[k], key)
    ensures FirstText(records, key) == ""
  {
    if records != [] {
      assert KeyFree(records[0], key);
      NoKeyNoText(records[1..], key);
    }
  }

  predicate KeyFree(record: string, key: string) {
    Strstr(record, key).None?
  }

  /** Where the first empty record is, the list is cut off. */
  lemma {:induction false} UntilEmptyIs(records: seq<string>, k: nat)
    requires k < |records| && records[k] == "" && forall j :: 0 <= j < k ==> records[j] != ""
    ensures UntilEmpty(records) == records[..k]
  {
    if k > 0 {
      UntilEmptyIs(records[1..], k - 1);
    }
  }

  lemma {:induction false} NoneEmpty(records: seq<string>)
    requires AllNonEmpty(records)
    ensures UntilEmpty(records) == records
  {
    if records != [] {
      NoneEmpty(records[1..]);
    }
  }

  // ---------------------------------------------------------------- the parser

  /** An out-parameter that keeps its first value unless that is empty. */
  function Filled(value: string, records: seq<string>, key: string): string {
    if value == "" then FirstText(records, key) else value
  }

  lemma FilledMeans(value: string, records: seq<string>, key: string)
    ensures Filled(value, records, key) == if value != "" then value else FirstText(records, key)
  {
  }

  lemma FilledStep(value: string, record: string, rest: seq<string>, key: string)
    ensures Filled(if value == "" then TextIn(record, key) else value, rest, key)
         == Filled(value, [record] + rest, key)
  {
    hide FirstText, TextIn;
    FirstTextSplit([record], rest, key);
    FirstTextOne(record, key);
  }

  lemma ReadStep(value: string, record: string, rest: seq<string>, key: string)
    ensures
      var text := V4L2GetUsbValue(Some(key), Some(record), |record|);
      Filled(if value != "" then value else if text.None? then "" else text.value, rest, key)
      == Filled(value, [record] + rest, key)
  {
    hide Filled, V4L2GetUsbValue, TextIn;
    FilledStep(value, record, rest, key);
    TextIs(record, key);
  }

  lemma FilledByNothing(value: string, key: string)
    ensures Filled(value, [], key) == value
  {
  }

  /** The part of the loop body that fills one out-parameter. */
  method ReadRecord(was: string, key: string, record: string, ghost rest: seq<string>) returns (value: string)
    ensures Filled(value, rest, key) == Filled(was, [record] + rest, key)
  {
    hide Filled, V4L2GetUsbValue;
    value := was;
    ReadStep(was, record, rest, key);
    if value == "" {
      var retVal := V4L2GetUsbValue(Some(key), Some(record), |record|);
      value := if retVal.None? then "" else retVal.value;
    }
  }

  /** `overrun` says that strlen read past the end of the buffer; the out-parameters are
      then what had been found by that time. */
  method V4L2GetUsbString(action0: string, subsystem0: string, devnode0: string, buf: string, len: nat)
    returns (action: string, subsystem: string, devnode: string, overrun: bool)
    requires len <= |buf|
    ensures overrun <==> Overruns(buf, len, 0)
    ensures action == if action0 != "" then action0 else FirstText(Visited(buf, len, 0), "ACTION=")
    ensures subsystem == if subsystem0 != "" then subsystem0 else FirstText(Visited(buf, len, 0), "SUBSYSTEM=")
    ensures devnode == if devnode0 != "" then devnode0 else FirstText(Visited(buf, len, 0), "DEVNAME=")
  {
    hide FirstText, Visited, Overruns, Filled, TextIn, V4L2GetUsbValue, Strlen, NulFree, OccursAt, Strstr;
    action, subsystem, devnode := action0, subsystem0, devnode0;
    var pos := 0;
    var lineLen := Strlen(buf, pos);
    while pos + lineLen < len && lineLen > 0
      invariant pos <= len && lineLen == Strlen(buf, pos)
      invariant Overruns(buf, len, pos) == Overruns(buf, len, 0)
      invariant Filled(action, Visited(buf, len, pos), ACTION) == Filled(action0, Visited(buf, len, 0), ACTION)
      invariant Filled(subsystem, Visited(buf, len, pos), SUBSYSTEM)
             == Filled(subsystem0, Visited(buf, len, 0), SUBSYSTEM)
      invariant Filled(devnode, Visited(buf, len, pos), DEVNAME) == Filled(devnode0, Visited(buf, len, 0), DEVNAME)
      decreases len - pos
    {
      var record := buf[pos..pos + lineLen];
      ghost var rest := Visited(buf, len, pos + lineLen + 1);
      VisitedStep(buf, len, pos);
      action := ReadRecord(action, ACTION, record, rest);
      subsystem := ReadRecord(subsystem, SUBSYSTEM, record, rest);
      devnode := ReadRecord(devnode, DEVNAME, record, rest);
      pos := pos + lineLen + 1;
      lineLen := Strlen(buf, pos);
    }
    VisitedStep(buf, len, pos);
    FilledByNothing(action, ACTION);
    FilledByNothing(subsystem, SUBSYSTEM);
    FilledByNothing(devnode, DEVNAME);
    overrun := pos + lineLen == |buf|;
    FilledMeans(action0, Visited(buf, len, 0), ACTION);
    FilledMeans(subsystem0, Visited(buf, len, 0), SUBSYSTEM);
    FilledMeans(devnode0, Visited(buf, len, 0), DEVNAME);
  }

  /** A uevent, as the kernel prints it: text that precedes, separates and follows the
      three records of interest. */
  datatype Event = Event(head: seq<string>, action: string, a: seq<string>, subsystem: string, b: seq<string>,
                         devnode: string, rest: seq<string>)

  function RecordsOf(e: Event): seq<string> {
    e.head + ["ACTION=" + e.action] + e.a + ["SUBSYSTEM=" + e.subsystem] + e.b + ["DEVNAME=" + e.devnode] + e.rest
  }

  /** No key occurs in the text before its own record. */
  predicate KeysInPlace(e: Event) {
    && (forall k :: 0 <= k < |BeforeAction(e)| ==> KeyFree(BeforeAction(e)[k], ACTION))
    && (forall k :: 0 <= k < |BeforeSubsystem(e)| ==> KeyFree(BeforeSubsystem(e)[k], SUBSYSTEM))
    && (forall k :: 0 <= k < |BeforeDevnode(e)| ==> KeyFree(BeforeDevnode(e)[k], DEVNAME))
  }

  function BeforeAction(e: Event): seq<string> {
    e.head
  }

  function BeforeSubsystem(e: Event): seq<string> {
    e.head + [ACTION + e.action] + e.a
  }

  function BeforeDevnode(e: Event): seq<string> {
    BeforeSubsystem(e) + [SUBSYSTEM + e.subsystem] + e.b
  }

  lemma EmptyIsNulFree()
    ensures NulFree("")
  {
  }

  /** Parsing undoes printing. */
  lemma PrintedEventParsed(e: Event, buf: string, len: nat)
    requires len < |buf| && buf[len] == NUL && buf[..len] == Print(RecordsOf(e))
    requires AllNulFree(RecordsOf(e)) && AllNonEmpty(RecordsOf(e)) && KeysInPlace(e)
    requires e.action != "" && e.subsystem != "" && e.devnode != ""
    ensures Visited(buf, len, 0) == RecordsOf(e) && !Overruns(buf, len, 0)
    ensures FirstText(Visited(buf, len, 0), "ACTION=") == e.action
    ensures FirstText(Visited(buf, len, 0), "SUBSYSTEM=") == e.subsystem
    ensures FirstText(Visited(buf, len, 0), "DEVNAME=") == e.devnode
  {
    hide FirstText, Visited, Overruns, Strlen, NulFree, OccursAt, Strstr;
    hide Print, UntilEmpty, AllNulFree, AllNonEmpty, KeyFree;
    assert buf[0..len] == Print(RecordsOf(e)) + "";
    ZeroStopsParser(buf, len, 0);
    EmptyIsNulFree();
    VisitsEveryRecord(buf, len, 0, RecordsOf(e), "");
    NoneEmpty(RecordsOf(e));
    NoKeyNoText(BeforeAction(e), ACTION);
    NoKeyNoText(BeforeSubsystem(e), SUBSYSTEM);
    NoKeyNoText(BeforeDevnode(e), DEVNAME);
    assert RecordsOf(e) == BeforeAction(e) + [ACTION + e.action]
                           + (e.a + [SUBSYSTEM + e.subsystem] + e.b + [DEVNAME + e.devnode] + e.rest);
    PrintedValueFound(BeforeAction(e), ACTION, e.action,
                      e.a + [SUBSYSTEM + e.subsystem] + e.b + [DEVNAME + e.devnode] + e.rest);
    assert RecordsOf(e) == BeforeSubsystem(e) + [SUBSYSTEM + e.subsystem] + (e.b + [DEVNAME + e.devnode] + e.rest);
    PrintedValueFound(BeforeSubsystem(e), SUBSYSTEM, e.subsystem, e.b + [DEVNAME + e.devnode] + e.rest);
    PrintedValueFound(BeforeDevnode(e), DEVNAME, e.devnode, e.rest);
  }
}
