/** The parser object of the server: every method moves `pos`, exceptions become outcomes,
    and each method is proved to do what the function of the same name says. */
module RespParsing {
  import opened Octets
  import R = Resp

  datatype Outcome<T> = Returned(value: T) | Raised(fault: R.Fault)

  /** A returned value and the new position, or the exception raised. The position after an
      exception is never looked at. */
  predicate Agrees<T(==)>(r: Outcome<T>, pos: nat, spec: R.Parsed<T>) {
    match spec
    case Ok(v, next) => r == Returned(v) && pos == next
    case Fail(f) => r == Raised(f)
  }

  class RespParser {
    const buf: Bytes
    var pos: nat

    ghost predicate Valid()
      reads this
    {
      pos <= |buf|
    }

    constructor (buffer: Bytes)
      ensures buf == buffer && pos == 0 && Valid()
    {
      buf := buffer;
      pos := 0;
    }

    function ConsumedBytes(): nat
      reads this
    {
      pos
    }

    method ReadLine() returns (r: Outcome<Bytes>)
      requires Valid()
      modifies this`pos
      ensures Valid() && Agrees(r, pos, R.ReadLine(buf, old(pos)))
    {
      var start := pos;
      while pos < |buf| && buf[pos] != LF
        invariant start <= pos <= |buf|
        invariant R.LineEnd(buf, start) == R.LineEnd(buf, pos)
        decreases |buf| - pos
      {
        pos := pos + 1;
      }
      if pos >= |buf| {
        return Raised(R.IncompleteLine);
      }
      if pos == start {
        return Raised(R.LengthError);
      }
      r := Returned(buf[start..pos - 1]);
      pos := pos + 1;
    }

    method ReadBulkString(length: nat) returns (r: Outcome<Bytes>)
      requires Valid()
      modifies this`pos
      ensures Valid() && Agrees(r, pos, R.ReadBulk(buf, old(pos), length))
    {
      if (pos + length + 2) % TWO_64 > |buf| {
        return Raised(R.IncompleteBulk);
      }
      if pos + length + 2 > |buf| {
        return Raised(R.LengthError);
      }
      r := Returned(buf[pos..pos + length]);
      pos := pos + length + 2;
    }

    /** `parse_simple_string`, `parse_error` and `parse_integer`. */
    method ParseScalar(tag: byte) returns (r: Outcome<R.RespValue>)
      requires Valid()
      modifies this`pos
      ensures Valid() && Agrees(r, pos, R.ParseScalar(tag, buf, old(pos)))
    {
      var line := ReadLine();
      if line.Raised? {
        return Raised(line.fault);
      }
      var text := line.value;
      if tag == 43 || tag == 45 {
        if text != [] && text[|text| - 1] == CR {
          text := text[..|text| - 1];
        }
        return Returned(if tag == 43 then R.SimpleString(text) else R.Error(text));
      }
      var n := ToSigned64(text);
      if n.None? {
        return Raised(R.BadInteger);
      }
      r := Returned(R.Integer(n.value));
    }

    method ParseBulkString() returns (r: Outcome<R.RespValue>)
      requires Valid()
      modifies this`pos
      ensures Valid() && Agrees(r, pos, R.ParseBulk(buf, old(pos)))
    {
      var line := ReadLine();
      if line.Raised? {
        return Raised(line.fault);
      }
      if line.value == [45, 49] {
        return Returned(R.BulkString([]));
      }
      var length := ToUnsigned64(line.value);
      if length.None? {
        return Raised(R.BadBulkLength);
      }
      var s := ReadBulkString(length.value);
      if s.Raised? {
        return Raised(s.fault);
      }
      r := Returned(R.BulkString(s.value));
    }

    method ParseArray() returns (r: Outcome<R.RespValue>)
      requires Valid()
      modifies this`pos
      ensures Valid() && Agrees(r, pos, R.ParseArray(buf, old(pos)))
      decreases |buf| - pos, 0
    {
      hide R.Parse, R.ReadLine;
      var line := ReadLine();
      if line.Raised? {
        return Raised(line.fault);
      }
      var count := ToUnsigned64(line.value);
      if count.None? {
        return Raised(R.BadArrayLength);
      }
      var first := pos;
      var elems := [];
      var i := 0;
      ghost var all := R.ParseElems(buf, first, count.value);
      assert all.Ok? ==> elems + all.value == all.value;
      while i < count.value
        invariant i <= count.value && first <= pos <= |buf|
        invariant R.ParseElems(buf, first, count.value) == Prepend(elems, R.ParseElems(buf, pos, count.value - i))
      {
        var v := Parse();
        if v.Raised? {
          return Raised(v.fault);
        }
        ghost var rest := R.ParseElems(buf, pos, count.value - i - 1);
        assert rest.Ok? ==> elems + ([v.value] + rest.value) == elems + [v.value] + rest.value;
        elems := elems + [v.value];
        i := i + 1;
      }
      assert elems + [] == elems;
      r := Returned(R.Array(elems));
    }

    method Parse() returns (r: Outcome<R.RespValue>)
      requires Valid()
      modifies this`pos
      ensures Valid() && Agrees(r, pos, R.Parse(buf, old(pos)))
      decreases |buf| - pos, 1
    {
      hide R.ParseScalar, R.ParseBulk, R.ParseArray;
      if pos >= |buf| {
        return Raised(R.IncompleteCommand);
      }
      var tag := buf[pos];
      pos := pos + 1;
      if tag == 43 || tag == 45 || tag == 58 {
        r := ParseScalar(tag);
      } else if tag == 36 {
        r := ParseBulkString();
      } else if tag == 42 {
        r := ParseArray();
      } else {
        r := Raised(R.UnknownType);
      }
    }
  }

  function Prepend(vs: seq<R.RespValue>, p: R.Parsed<seq<R.RespValue>>): R.Parsed<seq<R.RespValue>> {
    match p
    case Ok(ws, next) => R.Ok(vs + ws, next)
    case Fail(f) => R.Fail(f)
  }

  /** The client's encoder: an array header, then one bulk string per word. */
  method EncodeCommand(parts: seq<Bytes>) returns (text: Bytes)
    ensures text == R.Print(CommandWire(parts))
  {
    hide R.Print, R.PrintAll, Words, Decimal;
    text := [42] + Decimal(|parts|) + CRLF;
    var i := 0;
    CommandUnfolds(parts);
    while i < |parts|
      invariant i <= |parts|
      invariant text + R.PrintAll(Words(parts[i..])) == R.Print(CommandWire(parts))
    {
      WordsUnfold(parts, i);
      var p := parts[i];
      text := text + ([36] + Decimal(|p|) + CRLF + (p + CRLF));
      i := i + 1;
    }
    WordsEnd(parts);
  }

  lemma CommandUnfolds(parts: seq<Bytes>)
    ensures R.Print(CommandWire(parts)) == [42] + Decimal(|parts|) + CRLF + R.PrintAll(Words(parts[0..]))
  {
    hide R.PrintAll, Decimal;
    assert parts[0..] == parts;
  }

  lemma WordsUnfold(parts: seq<Bytes>, i: nat)
    requires i < |parts|
    ensures R.PrintAll(Words(parts[i..]))
         == [36] + Decimal(|parts[i]|) + CRLF + (parts[i] + CRLF) + R.PrintAll(Words(parts[i + 1..]))
  {
    hide Decimal;
    assert Words(parts[i..])[1..] == Words(parts[i + 1..]);
    assert R.Print(Words(parts[i..])[0]) == [36] + Decimal(|parts[i]|) + CRLF + (parts[i] + CRLF);
  }

  lemma WordsEnd(parts: seq<Bytes>)
    ensures R.PrintAll(Words(parts[|parts|..])) == []
  {
  }

  function Words(parts: seq<Bytes>): (ws: seq<R.Wire>)
    ensures |ws| == |parts|
  {
    seq(|parts|, i requires 0 <= i < |parts| => R.Bulk(parts[i]))
  }

  function CommandWire(parts: seq<Bytes>): R.Wire { R.Multi(Words(parts)) }

  /** A command sent by the client arrives as an array of exactly its words, and the bytes
      behind it are left for the next call. */
  lemma CommandArrives(parts: seq<Bytes>, tail: Bytes)
    requires |R.Print(CommandWire(parts)) + tail| < TWO_64
    ensures R.Parse(R.Print(CommandWire(parts)) + tail, 0)
         == R.Ok(R.Array(seq(|parts|, i requires 0 <= i < |parts| => R.BulkString(parts[i]))),
                 |R.Print(CommandWire(parts))|)
  {
    hide R.Parse, R.Print;
    var w := CommandWire(parts);
    R.ParseUndoesPrint(w, R.Print(w) + tail, 0);
    assert R.MeaningAll(Words(parts)) == seq(|parts|, i requires 0 <= i < |parts| => R.BulkString(parts[i]));
  }
}
