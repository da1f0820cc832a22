/** The RESP parser as a function of the buffer and a position, the printer it must undo,
    and the two facts the connection loop relies on: parsing undoes printing, and a cut
    value is never mistaken for a whole one or for a malformed one. */
module Resp {
  import opened Octets

  /** What the parser delivers. The source keeps all fields in one class with a type tag. */
  datatype RespValue =
    | SimpleString(text: Bytes)
    | Error(text: Bytes)
    | Integer(n: int)
    | BulkString(text: Bytes)
    | Array(elems: seq<RespValue>)

  /** One constructor per exception message; LengthError is the `std::length_error` of the
      string constructor, which no handler of the connection loop catches. */
  datatype Fault =
    | IncompleteCommand
    | IncompleteLine
    | IncompleteBulk
    | UnknownType
    | BadInteger
    | BadBulkLength
    | BadArrayLength
    | LengthError

  datatype Parsed<T> = Ok(value: T, next: nat) | Fail(fault: Fault)

  // ----- The parser -----

  /** The first line feed at or after `pos`, or the end of the buffer. */
  function LineEnd(b: Bytes, pos: nat): (e: nat)
    requires pos <= |b|
    ensures pos <= e <= |b|
    ensures forall i :: pos <= i < e ==> b[i] != LF
    ensures e < |b| ==> b[e] == LF
    decreases |b| - pos
  {
    if pos < |b| && b[pos] != LF then LineEnd(b, pos + 1) else pos
  }

  /** The byte before the line feed is dropped whatever it is. */
  function ReadLine(b: Bytes, pos: nat): (r: Parsed<Bytes>)
    requires pos <= |b|
    ensures r.Ok? ==> pos < r.next <= |b|
  {
    var e := LineEnd(b, pos);
    if e >= |b| then Fail(IncompleteLine)
    else if e == pos then Fail(LengthError)
    else Ok(b[pos..e - 1], e + 1)
  }

  /** The bound check wraps modulo 2^64; a length that passes only because it wrapped is
      refused by the string constructor. */
  function ReadBulk(b: Bytes, pos: nat, length: nat): (r: Parsed<Bytes>)
    requires pos <= |b|
    ensures r.Ok? ==> pos < r.next <= |b|
  {
    if (pos + length + 2) % TWO_64 > |b| then Fail(IncompleteBulk)
    else if pos + length + 2 > |b| then Fail(LengthError)
    else Ok(b[pos..pos + length], pos + length + 2)
  }

  function StripCr(t: Bytes): Bytes {
    if t != [] && t[|t| - 1] == CR then t[..|t| - 1] else t
  }

  function ParseScalar(tag: byte, b: Bytes, pos: nat): (r: Parsed<RespValue>)
    requires pos <= |b|
    ensures r.Ok? ==> pos < r.next <= |b|
  {
    match ReadLine(b, pos)
    case Fail(f) => Fail(f)
    case Ok(line, next) =>
      if tag == 43 then Ok(SimpleString(StripCr(line)), next)
      else if tag == 45 then Ok(Error(StripCr(line)), next)
      else
        match ToSigned64(line)
        case None => Fail(BadInteger)
        case Some(n) => Ok(Integer(n), next)
  }

  function ParseBulk(b: Bytes, pos: nat): (r: Parsed<RespValue>)
    requires pos <= |b|
    ensures r.Ok? ==> pos < r.next <= |b|
  {
    match ReadLine(b, pos)
    case Fail(f) => Fail(f)
    case Ok(line, next) =>
      if line == [45, 49] then Ok(BulkString([]), next)
      else
        match ToUnsigned64(line)
        case None => Fail(BadBulkLength)
        case Some(length) =>
          match ReadBulk(b, next, length)
          case Fail(f) => Fail(f)
          case Ok(s, end) => Ok(BulkString(s), end)
  }

  function Parse(b: Bytes, pos: nat): (r: Parsed<RespValue>)
    requires pos <= |b|
    ensures r.Ok? ==> pos < r.next <= |b|
    decreases |b| - pos, 0, 0
  {
    if pos >= |b| then Fail(IncompleteCommand)
    else
      var tag := b[pos];
      if tag == 43 || tag == 45 || tag == 58 then ParseScalar(tag, b, pos + 1)
      else if tag == 36 then ParseBulk(b, pos + 1)
      else if tag == 42 then ParseArray(b, pos + 1)
      else Fail(UnknownType)
  }

  function ParseArray(b: Bytes, pos: nat): (r: Parsed<RespValue>)
    requires pos <= |b|
    ensures r.Ok? ==> pos < r.next <= |b|
    decreases |b| - pos, 0, 0
  {
    match ReadLine(b, pos)
    case Fail(f) => Fail(f)
    case Ok(line, next) =>
      match ToUnsigned64(line)
      case None => Fail(BadArrayLength)
      case Some(count) =>
        match ParseElems(b, next, count)
        case Fail(f) => Fail(f)
        case Ok(vs, end) => Ok(Array(vs), end)
  }

  function ParseElems(b: Bytes, pos: nat, count: nat): (r: Parsed<seq<RespValue>>)
    requires pos <= |b|
    ensures r.Ok? ==> pos <= r.next <= |b|
    decreases |b| - pos, 1, count
  {
    if count == 0 then Ok([], pos)
    else
      match Parse(b, pos)
      case Fail(f) => Fail(f)
      case Ok(v, next) =>
        match ParseElems(b, next, count - 1)
        case Fail(f) => Fail(f)
        case Ok(vs, end) => Ok([v] + vs, end)
  }

  // ----- The printer -----

  /** What a client or the server puts on the wire. */
  datatype Wire =
    | Line(text: Bytes)
    | ErrorLine(text: Bytes)
    | Number(n: int)
    | Bulk(text: Bytes)
    | NullBulk
    | Multi(elems: seq<Wire>)

  function Header(tag: byte, n: int): Bytes { [tag] + SignedDecimal(n) + CRLF }

  function Print(w: Wire): (b: Bytes)
    ensures b != []
    decreases w, 1
  {
    match w
    case Line(t) => [43] + t + CRLF
    case ErrorLine(t) => [45] + t + CRLF
    case Number(n) => Header(58, n)
    case Bulk(t) => Header(36, |t|) + (t + CRLF)
    case NullBulk => Header(36, -1)
    case Multi(ws) => Header(42, |ws|) + PrintAll(ws)
  }

  function PrintAll(ws: seq<Wire>): (b: Bytes)
    ensures |b| >= |ws|
    decreases ws, 0
  {
    if ws == [] then [] else Print(ws[0]) + PrintAll(ws[1..])
  }

  /** What the parser makes of it: a null bulk string arrives as an empty one. */
  function Meaning(w: Wire): RespValue
    decreases w, 1
  {
    match w
    case Line(t) => SimpleString(t)
    case ErrorLine(t) => Error(t)
    case Number(n) => Integer(n)
    case Bulk(t) => BulkString(t)
    case NullBulk => BulkString([])
    case Multi(ws) => Array(MeaningAll(ws))
  }

  function MeaningAll(ws: seq<Wire>): (vs: seq<RespValue>)
    ensures |vs| == |ws|
    decreases ws, 0
  {
    seq(|ws|, i requires 0 <= i < |ws| => Meaning(ws[i]))
  }

  predicate PlainLine(t: Bytes) { LF !in t && (t == [] || t[|t| - 1] != CR) }

  predicate WellFormed(w: Wire) {
    match w
    case Line(t) => PlainLine(t)
    case ErrorLine(t) => PlainLine(t)
    case Number(n) => InInt64(n)
    case Bulk(_) => true
    case NullBulk => true
    case Multi(ws) => forall i :: 0 <= i < |ws| ==> WellFormed(ws[i])
  }

  predicate AllWellFormed(ws: seq<Wire>) { forall i :: 0 <= i < |ws| ==> WellFormed(ws[i]) }

  // ----- One step of the parser -----

  lemma LineStep(b: Bytes, pos: nat, line: Bytes, next: nat)
    requires pos < |b| && ReadLine(b, pos + 1) == Ok(line, next)
    ensures b[pos] == 43 ==> Parse(b, pos) == Ok(SimpleString(StripCr(line)), next)
    ensures b[pos] == 45 ==> Parse(b, pos) == Ok(Error(StripCr(line)), next)
    ensures b[pos] == 58 && ToSigned64(line).Some? ==> Parse(b, pos) == Ok(Integer(ToSigned64(line).value), next)
    ensures b[pos] == 36 && line == [45, 49] ==> Parse(b, pos) == Ok(BulkString([]), next)
  {
    hide ReadLine, ToSigned64, ToUnsigned64, ParseElems, StripCr;
  }

  lemma BulkStep(b: Bytes, pos: nat, line: Bytes, next: nat, length: nat)
    requires pos < |b| && b[pos] == 36 && ReadLine(b, pos + 1) == Ok(line, next) && line != [45, 49]
    requires next <= |b| && ToUnsigned64(line) == Some(length)
    ensures Parse(b, pos) == match ReadBulk(b, next, length)
                             case Fail(f) => Fail(f)
                             case Ok(s, end) => Ok(BulkString(s), end)
  {
    hide ReadLine, ToUnsigned64, ReadBulk, ParseElems, ParseScalar;
  }

  lemma ArrayStep(b: Bytes, pos: nat, line: Bytes, next: nat, count: nat)
    requires pos < |b| && b[pos] == 42 && ReadLine(b, pos + 1) == Ok(line, next)
    requires next <= |b| && ToUnsigned64(line) == Some(count)
    ensures Parse(b, pos) == match ParseElems(b, next, count)
                             case Fail(f) => Fail(f)
                             case Ok(vs, end) => Ok(Array(vs), end)
  {
    hide ReadLine, ToUnsigned64, ParseElems, ParseScalar, ParseBulk;
  }

  lemma FailStep(b: Bytes, pos: nat, f: Fault)
    requires pos < |b| && b[pos] in {43, 45, 58, 36, 42} && ReadLine(b, pos + 1) == Fail(f)
    ensures Parse(b, pos) == Fail(f)
  {
    hide ReadLine;
  }

  /** What is no value: a first byte other than + - : $ *, or a line that is no number where one
      must stand. */
  lemma MalformedStep(b: Bytes, pos: nat, line: Bytes, next: nat)
    requires pos < |b|
    ensures b[pos] !in {43, 45, 58, 36, 42} ==> Parse(b, pos) == Fail(UnknownType)
    ensures ReadLine(b, pos + 1) == Ok(line, next) && NotNumeric(line) ==>
              && (b[pos] == 58 ==> Parse(b, pos) == Fail(BadInteger))
              && (b[pos] == 36 ==> Parse(b, pos) == Fail(BadBulkLength))
              && (b[pos] == 42 ==> Parse(b, pos) == Fail(BadArrayLength))
  {
    hide ReadLine, ToSigned64, ToUnsigned64, ParseElems, StripCr;
    if NotNumeric(line) {
      NoNumber(line);
    }
  }

  /** Empty, or starting with neither a digit, a sign nor a blank. */
  predicate NotNumeric(t: Bytes) { t == [] || !(48 <= t[0] <= 57 || t[0] in {43, 45, 32, 9, 10, 11, 12, 13}) }

  lemma NoNumber(t: Bytes)
    requires NotNumeric(t)
    ensures ToSigned64(t) == None && ToUnsigned64(t) == None
  {
  }

  // ----- Parsing undoes printing -----

  lemma ReadPrintedLine(b: Bytes, pos: nat, t: Bytes)
    requires At(b, pos, t + CRLF) && LF !in t
    ensures ReadLine(b, pos) == Ok(t, pos + |t| + 2)
  {
    var e := LineEnd(b, pos);
    AtSplit(b, pos, t, CRLF);
    assert forall i :: pos <= i < pos + |t| ==> b[i] == b[pos..pos + |t|][i - pos];
    var end := b[pos + |t|..pos + |t| + 2];
    assert b[pos + |t|] == end[0] && b[pos + |t| + 1] == end[1];
    assert e == pos + |t| + 1;
  }

  /** What the parser takes on trust. The byte before a line feed is dropped whatever it is; an empty
      line is refused by the string constructor; a line or an error text loses one more trailing
      carriage return; and the two bytes behind a bulk string are skipped unread. */
  lemma LenientReading(b: Bytes, pos: nat, t: Bytes, x: byte, y: byte)
    requires LF !in t && x != LF && |b| < TWO_64
    ensures At(b, pos, t + [x, 10]) ==> ReadLine(b, pos) == Ok(t, pos + |t| + 2)
    ensures pos < |b| && b[pos] == 10 ==> ReadLine(b, pos) == Fail(LengthError)
    ensures At(b, pos, [43] + (t + [13]) + CRLF) ==> Parse(b, pos) == Ok(SimpleString(t), pos + |t| + 4)
    ensures At(b, pos, [45] + (t + [13]) + CRLF) ==> Parse(b, pos) == Ok(Error(t), pos + |t| + 4)
    ensures At(b, pos, t + [x, y]) ==> ReadBulk(b, pos, |t|) == Ok(t, pos + |t| + 2)
  {
    hide Parse, ReadLine, ReadBulk;
    if At(b, pos, t + [x, 10]) {
      LineWithAnyEnd(b, pos, t, x);
    }
    if pos < |b| && b[pos] == 10 {
      EmptyLine(b, pos);
    }
    if At(b, pos, [43] + (t + [13]) + CRLF) {
      LineWithTwoReturns(b, pos, 43, t);
    }
    if At(b, pos, [45] + (t + [13]) + CRLF) {
      LineWithTwoReturns(b, pos, 45, t);
    }
    if At(b, pos, t + [x, y]) {
      BulkWithAnyEnd(b, pos, t, x, y);
    }
  }

  lemma EmptyLine(b: Bytes, pos: nat)
    requires pos < |b| && b[pos] == 10
    ensures ReadLine(b, pos) == Fail(LengthError)
  {
  }

  lemma BulkWithAnyEnd(b: Bytes, pos: nat, t: Bytes, x: byte, y: byte)
    requires At(b, pos, t + [x, y]) && |b| < TWO_64
    ensures ReadBulk(b, pos, |t|) == Ok(t, pos + |t| + 2)
  {
    AtSplit(b, pos, t, [x, y]);
  }

  lemma LineWithAnyEnd(b: Bytes, pos: nat, t: Bytes, x: byte)
    requires At(b, pos, t + [x, 10]) && LF !in t && x != LF
    ensures ReadLine(b, pos) == Ok(t, pos + |t| + 2)
  {
    var e := LineEnd(b, pos);
    AtSplit(b, pos, t, [x, 10]);
    assert forall i :: pos <= i < pos + |t| ==> b[i] == b[pos..pos + |t|][i - pos];
    var end := b[pos + |t|..pos + |t| + 2];
    assert b[pos + |t|] == end[0] && b[pos + |t| + 1] == end[1];
    assert e == pos + |t| + 1;
  }

  lemma LineWithTwoReturns(b: Bytes, pos: nat, tag: byte, t: Bytes)
    requires LF !in t && (tag == 43 || tag == 45) && At(b, pos, [tag] + (t + [13]) + CRLF)
    ensures Parse(b, pos) == Ok(if tag == 43 then SimpleString(t) else Error(t), pos + |t| + 4)
  {
    hide Parse, ReadLine;
    assert [tag] + (t + [13]) + CRLF == [tag] + ((t + [13]) + CRLF);
    AtSplit(b, pos, [tag], (t + [13]) + CRLF);
    assert b[pos..pos + 1][0] == tag;
    ReadPrintedLine(b, pos + 1, t + [13]);
    LineStep(b, pos, t + [13], pos + |t| + 4);
    assert (t + [13])[..|t|] == t;
  }

  lemma HeaderAt(b: Bytes, pos: nat, tag: byte, n: int)
    requires At(b, pos, Header(tag, n))
    ensures pos < |b| && b[pos] == tag
    ensures ReadLine(b, pos + 1) == Ok(SignedDecimal(n), pos + |Header(tag, n)|)
  {
    assert Header(tag, n) == [tag] + (SignedDecimal(n) + CRLF);
    AtSplit(b, pos, [tag], SignedDecimal(n) + CRLF);
    assert b[pos..pos + 1][0] == tag;
    DecimalHasNoBreak(n);
    ReadPrintedLine(b, pos + 1, SignedDecimal(n));
  }

  lemma LengthIsNotNull(n: nat)
    ensures SignedDecimal(n) != [45, 49]
  {
    assert IsDigit(SignedDecimal(n)[0]);
  }

  /** The header of a bulk string or array announces its length. */
  lemma LengthAt(b: Bytes, pos: nat, tag: byte, n: nat)
    requires n < TWO_64 && At(b, pos, Header(tag, n))
    ensures pos < |b| && b[pos] == tag && pos + |Header(tag, n)| <= |b|
    ensures ReadLine(b, pos + 1) == Ok(SignedDecimal(n), pos + |Header(tag, n)|)
    ensures SignedDecimal(n) != [45, 49] && ToUnsigned64(SignedDecimal(n)) == Some(n)
  {
    HeaderAt(b, pos, tag, n);
    LengthIsNotNull(n);
    NumberRoundTrip(n);
  }

  lemma BulkAt(b: Bytes, pos: nat, t: Bytes)
    requires |b| < TWO_64 && At(b, pos, Print(Bulk(t)))
    ensures Parse(b, pos) == Ok(BulkString(t), pos + |Print(Bulk(t))|)
  {
    hide Parse, ReadLine, ReadBulk, SignedDecimal, ToUnsigned64;
    var h := Header(36, |t|);
    AtSplit(b, pos, h, t + CRLF);
    LengthAt(b, pos, 36, |t|);
    BulkStep(b, pos, SignedDecimal(|t|), pos + |h|, |t|);
    ReadBulkAt(b, pos + |h|, t);
  }

  lemma NumberAt(b: Bytes, pos: nat, n: int)
    requires InInt64(n) && At(b, pos, Header(58, n))
    ensures Parse(b, pos) == Ok(Integer(n), pos + |Header(58, n)|)
  {
    hide Parse, ReadLine, SignedDecimal, ToSigned64;
    HeaderAt(b, pos, 58, n);
    NumberRoundTrip(n);
    LineStep(b, pos, SignedDecimal(n), pos + |Header(58, n)|);
  }

  lemma NullAt(b: Bytes, pos: nat)
    requires At(b, pos, Header(36, -1))
    ensures Parse(b, pos) == Ok(BulkString([]), pos + |Header(36, -1)|)
  {
    assert SignedDecimal(-1) == [45, 49] by { assert Decimal(1) == [49]; }
    hide Parse, ReadLine, SignedDecimal;
    HeaderAt(b, pos, 36, -1);
    LineStep(b, pos, [45, 49], pos + |Header(36, -1)|);
  }

  lemma ReadBulkAt(b: Bytes, pos: nat, t: Bytes)
    requires |b| < TWO_64 && At(b, pos, t + CRLF)
    ensures ReadBulk(b, pos, |t|) == Ok(t, pos + |t| + 2)
  {
    AtSplit(b, pos, t, CRLF);
  }

  lemma ReadBulkCut(b: Bytes, pos: nat, t: Bytes)
    requires pos + |t| + 2 < TWO_64 && CutAt(b, pos, t + CRLF)
    ensures ReadBulk(b, pos, |t|) == Fail(IncompleteBulk)
  {
  }

  lemma LineAt(b: Bytes, pos: nat, tag: byte, t: Bytes)
    requires (tag == 43 || tag == 45) && PlainLine(t) && At(b, pos, [tag] + t + CRLF)
    ensures Parse(b, pos) == Ok(if tag == 43 then SimpleString(t) else Error(t), pos + |t| + 3)
  {
    hide Parse, ReadLine;
    assert [tag] + t + CRLF == [tag] + (t + CRLF);
    AtSplit(b, pos, [tag], t + CRLF);
    assert b[pos..pos + 1][0] == tag;
    ReadPrintedLine(b, pos + 1, t);
    LineStep(b, pos, t, pos + |t| + 3);
  }

  /** For every well-formed value, wherever it stands and whatever follows it, the parser
      returns its meaning and stops exactly behind it. */
  lemma {:induction false} ParseUndoesPrint(w: Wire, b: Bytes, pos: nat)
    requires WellFormed(w) && |b| < TWO_64 && At(b, pos, Print(w))
    ensures Parse(b, pos) == Ok(Meaning(w), pos + |Print(w)|)
    decreases w, 1
  {
    hide Parse, ParseElems, ReadLine, Header, PrintAll, MeaningAll, ToUnsigned64;
    match w
    case Line(t) => LineAt(b, pos, 43, t);
    case ErrorLine(t) => LineAt(b, pos, 45, t);
    case Number(n) => NumberAt(b, pos, n);
    case Bulk(t) => BulkAt(b, pos, t);
    case NullBulk => NullAt(b, pos);
    case Multi(ws) =>
      var h := Header(42, |ws|);
      AtSplit(b, pos, h, PrintAll(ws));
      LengthAt(b, pos, 42, |ws|);
      ArrayStep(b, pos, SignedDecimal(|ws|), pos + |h|, |ws|);
      ParseUndoesPrintAll(ws, b, pos + |h|);
  }

  lemma {:induction false} ParseUndoesPrintAll(ws: seq<Wire>, b: Bytes, pos: nat)
    requires AllWellFormed(ws) && |b| < TWO_64 && At(b, pos, PrintAll(ws))
    ensures ParseElems(b, pos, |ws|) == Ok(MeaningAll(ws), pos + |PrintAll(ws)|)
    decreases ws, 0
  {
    hide Parse, Print, Meaning, WellFormed;
    if ws != [] {
      AtSplit(b, pos, Print(ws[0]), PrintAll(ws[1..]));
      ParseUndoesPrint(ws[0], b, pos);
      ParseUndoesPrintAll(ws[1..], b, pos + |Print(ws[0])|);
      assert MeaningAll(ws) == [Meaning(ws[0])] + MeaningAll(ws[1..]);
    }
  }

  // ----- Cut values -----

  /** Which exception a value cut after `n` bytes raises, read off the value alone. */
  function CutFault(w: Wire, n: nat): Fault
    requires n < |Print(w)|
    decreases w, 1
  {
    if n == 0 then IncompleteCommand
    else
      match w
      case Bulk(t) => if n < |Header(36, |t|)| then IncompleteLine else IncompleteBulk
      case Multi(ws) =>
        var h := |Header(42, |ws|)|;
        if n < h then IncompleteLine else CutFaultAll(ws, n - h)
      case _ => IncompleteLine
  }

  function CutFaultAll(ws: seq<Wire>, n: nat): Fault
    requires n < |PrintAll(ws)|
    decreases ws, 0
  {
    if n < |Print(ws[0])| then CutFault(ws[0], n)
    else CutFaultAll(ws[1..], n - |Print(ws[0])|)
  }

  /** Offset `n` is the first byte of the value or of a value nested in it. */
  predicate StartsValue(w: Wire, n: nat)
    decreases w, 1
  {
    n == 0 || (w.Multi? && n >= |Header(42, |w.elems|)| && StartsValueIn(w.elems, n - |Header(42, |w.elems|)|))
  }

  predicate StartsValueIn(ws: seq<Wire>, n: nat)
    decreases ws, 0
  {
    ws != [] &&
    if n < |Print(ws[0])| then StartsValue(ws[0], n) else StartsValueIn(ws[1..], n - |Print(ws[0])|)
  }

  /** A cut never looks like a format error, and the one message that makes the connection
      wait for more is raised exactly at the cuts that fall on the start of a value. */
  lemma {:induction false} CutFaultIsIncomplete(w: Wire, n: nat)
    requires n < |Print(w)|
    ensures CutFault(w, n) in {IncompleteCommand, IncompleteLine, IncompleteBulk}
    ensures CutFault(w, n) == IncompleteCommand <==> StartsValue(w, n)
    decreases w, 1
  {
    if w.Multi? && n >= |Header(42, |w.elems|)| {
      CutFaultAllIsIncomplete(w.elems, n - |Header(42, |w.elems|)|);
    }
  }

  lemma {:induction false} CutFaultAllIsIncomplete(ws: seq<Wire>, n: nat)
    requires n < |PrintAll(ws)|
    ensures CutFaultAll(ws, n) in {IncompleteCommand, IncompleteLine, IncompleteBulk}
    ensures CutFaultAll(ws, n) == IncompleteCommand <==> StartsValueIn(ws, n)
    decreases ws, 0
  {
    if n < |Print(ws[0])| {
      CutFaultIsIncomplete(ws[0], n);
    } else {
      CutFaultAllIsIncomplete(ws[1..], n - |Print(ws[0])|);
    }
  }

  lemma ReadCutLine(b: Bytes, pos: nat, t: Bytes)
    requires CutAt(b, pos, t + CRLF) && LF !in t
    ensures ReadLine(b, pos) == Fail(IncompleteLine)
  {
    var e := LineEnd(b, pos);
    assert forall i :: pos <= i < |b| ==> b[i] == b[pos..][i - pos] == (t + CRLF)[i - pos];
    assert e == |b|;
  }

  lemma HeaderCut(b: Bytes, pos: nat, tag: byte, t: Bytes)
    requires CutAt(b, pos, [tag] + t + CRLF) && pos < |b| && LF !in t && tag in {43, 45, 58, 36, 42}
    ensures Parse(b, pos) == Fail(IncompleteLine)
  {
    hide Parse, ReadLine;
    assert [tag] + t + CRLF == [tag] + (t + CRLF);
    CutSplit(b, pos, [tag], t + CRLF);
    assert b[pos] == b[pos..pos + 1][0];
    ReadCutLine(b, pos + 1, t);
    FailStep(b, pos, IncompleteLine);
  }

  lemma NumberCut(b: Bytes, pos: nat, tag: byte, n: int)
    requires CutAt(b, pos, Header(tag, n)) && pos < |b| && tag in {58, 36, 42}
    ensures Parse(b, pos) == Fail(IncompleteLine)
  {
    hide Parse, SignedDecimal;
    DecimalHasNoBreak(n);
    HeaderCut(b, pos, tag, SignedDecimal(n));
  }

  lemma CutBulkUnfolds(t: Bytes, b: Bytes, pos: nat)
    requires CutAt(b, pos, Print(Bulk(t))) && pos < |b|
    ensures Print(Bulk(t)) == Header(36, |t|) + (t + CRLF) && |b| < pos + |Print(Bulk(t))|
    ensures |Header(36, |t|)| + |t| + 2 == |Print(Bulk(t))|
    ensures CutFault(Bulk(t), |b| - pos)
         == if |b| - pos < |Header(36, |t|)| then IncompleteLine else IncompleteBulk
  {
    hide Header;
  }

  lemma ParseCutBulk(b: Bytes, pos: nat, t: Bytes)
    requires pos + |Print(Bulk(t))| < TWO_64 && CutAt(b, pos, Print(Bulk(t))) && pos < |b|
    ensures Parse(b, pos) == Fail(CutFault(Bulk(t), |b| - pos))
  {
    hide *;
    CutBulkUnfolds(t, b, pos);
    var h := Header(36, |t|);
    CutSplit(b, pos, h, t + CRLF);
    if |b| < pos + |h| {
      NumberCut(b, pos, 36, |t|);
    } else {
      LengthAt(b, pos, 36, |t|);
      BulkStep(b, pos, SignedDecimal(|t|), pos + |h|, |t|);
      ReadBulkCut(b, pos + |h|, t);
    }
  }

  /** For every well-formed value cut anywhere, the parser raises exactly `CutFault`. */
  lemma {:induction false} ParseCut(w: Wire, b: Bytes, pos: nat)
    requires WellFormed(w) && pos + |Print(w)| < TWO_64 && CutAt(b, pos, Print(w))
    ensures Parse(b, pos) == Fail(CutFault(w, |b| - pos))
    decreases w, 1
  {
    hide *;
    CutUnfolds(w, b, pos);
    if pos == |b| {
      return;
    }
    match w
    case Line(t) => HeaderCut(b, pos, 43, t);
    case ErrorLine(t) => HeaderCut(b, pos, 45, t);
    case Number(n) => NumberCut(b, pos, 58, n);
    case NullBulk => NumberCut(b, pos, 36, -1);
    case Bulk(t) => ParseCutBulk(b, pos, t);
    case Multi(ws) =>
      var h := Header(42, |ws|);
      CutSplit(b, pos, h, PrintAll(ws));
      if |b| - pos >= |h| {
        ParseCutAll(ws, b, pos + |h|);
      }
      ParseCutArray(b, pos, ws);
  }

  /** The definitions that `ParseCut` appeals to, case by case. */
  lemma CutUnfolds(w: Wire, b: Bytes, pos: nat)
    requires WellFormed(w) && CutAt(b, pos, Print(w))
    ensures pos <= |b| < pos + |Print(w)|
    ensures pos == |b| ==> Parse(b, pos) == Fail(IncompleteCommand) == Fail(CutFault(w, 0))
    ensures pos < |b| && !w.Bulk? && !w.Multi? ==> CutFault(w, |b| - pos) == IncompleteLine
    ensures match w
            case Line(t) => Print(w) == [43] + t + CRLF && LF !in t
            case ErrorLine(t) => Print(w) == [45] + t + CRLF && LF !in t
            case Number(n) => Print(w) == Header(58, n)
            case NullBulk => Print(w) == Header(36, -1)
            case Bulk(t) => true
            case Multi(ws) => Print(w) == Header(42, |ws|) + PrintAll(ws) && AllWellFormed(ws)
  {
    hide Header, PrintAll, CutFaultAll, ReadLine;
  }

  lemma CutArrayUnfolds(ws: seq<Wire>, n: nat)
    requires 0 < n < |Print(Multi(ws))|
    ensures Print(Multi(ws)) == Header(42, |ws|) + PrintAll(ws)
    ensures var h := |Header(42, |ws|)|;
            CutFault(Multi(ws), n) == if n < h then IncompleteLine else CutFaultAll(ws, n - h)
  {
    hide PrintAll, CutFaultAll, Header;
  }

  lemma ParseCutArray(b: Bytes, pos: nat, ws: seq<Wire>)
    requires pos + |Print(Multi(ws))| < TWO_64 && CutAt(b, pos, Print(Multi(ws)))
    requires pos < |b| < pos + |Print(Multi(ws))|
    requires var h := |Header(42, |ws|)|;
             |b| - pos >= h ==> ParseElems(b, pos + h, |ws|) == Fail(CutFaultAll(ws, |b| - pos - h))
    ensures Parse(b, pos) == Fail(CutFault(Multi(ws), |b| - pos))
  {
    hide *;
    CutArrayUnfolds(ws, |b| - pos);
    var h := Header(42, |ws|);
    CutSplit(b, pos, h, PrintAll(ws));
    if |b| < pos + |h| {
      NumberCut(b, pos, 42, |ws|);
    } else {
      LengthAt(b, pos, 42, |ws|);
      ArrayStep(b, pos, SignedDecimal(|ws|), pos + |h|, |ws|);
    }
  }

  lemma {:induction false} ParseCutAll(ws: seq<Wire>, b: Bytes, pos: nat)
    requires AllWellFormed(ws) && pos + |PrintAll(ws)| < TWO_64 && CutAt(b, pos, PrintAll(ws))
    ensures ParseElems(b, pos, |ws|) == Fail(CutFaultAll(ws, |b| - pos))
    decreases ws, 0
  {
    hide Parse, Print, CutFault;
    var p := Print(ws[0]);
    CutSplit(b, pos, p, PrintAll(ws[1..]));
    if |b| < pos + |p| {
      ParseCut(ws[0], b, pos);
    } else {
      ParseUndoesPrint(ws[0], b, pos);
      ParseCutAll(ws[1..], b, pos + |p|);
    }
  }
}
