// http/HttpResponse.cpp: the printer, and the round trip of its header block through the parser.
module HttpResponse {
  import opened Octets
  import opened LineParser
  import opened HttpMessage
  import opened NetBuffer

  const LENGTH_KEY: Bytes := "Content-Length"
  const CONNECTION_KEY: Bytes := "Connection"
  const LENGTH_START: Bytes := "Content-Length: "
  const CLOSE: Bytes := "Connection: close"
  const KEEP_ALIVE: Bytes := "Connection: Keep-Alive"
  const STATUS_START: Bytes := "HTTP/1.1 "
  const SPACE: Bytes := " "
  const COLON: Bytes := ": "

  const FORMAT_SIZE: nat := 32
  /** 16 characters of "Content-Length: ", CR, LF and the final NUL leave room for 13 digits. */
  const LENGTH_DIGITS: nat := 13

  datatype Reply = Reply(
    statusCode: nat, statusMessage: Bytes, close: bool, headers: map<Bytes, Bytes>, body: Bytes)

  /** `snprintf` into the 32-byte `buf`: at most 31 characters are kept. */
  function Formatted(s: Bytes): Bytes {
    if |s| < FORMAT_SIZE then s else s[..FORMAT_SIZE - 1]
  }

  function StatusLine(r: Reply): Bytes {
    Formatted(STATUS_START + Decimal(r.statusCode) + SPACE) + r.statusMessage + CRLF
  }

  function LengthLine(r: Reply): Bytes {
    LENGTH_START + Decimal(|r.body|) + CRLF
  }

  function GeneratedLines(r: Reply): Bytes {
    if r.close then CLOSE + CRLF
    else Formatted(LengthLine(r)) + (KEEP_ALIVE + CRLF)
  }

  function KeyLine(key: Bytes, value: Bytes): Bytes {
    key + COLON + value
  }

  function KeyLines(keys: seq<Bytes>, headers: map<Bytes, Bytes>): Bytes
    requires forall k <- keys :: k in headers
  {
    if keys == [] then []
    else KeyLine(keys[0], headers[keys[0]]) + CRLF + KeyLines(keys[1..], headers)
  }

  function AfterStatus(r: Reply, keys: seq<Bytes>): Bytes
    requires forall k <- keys :: k in r.headers
  {
    GeneratedLines(r) + KeyLines(keys, r.headers) + CRLF + r.body
  }

  /** `keys` lists every header once, in some order. */
  ghost predicate Enumerates(keys: seq<Bytes>, headers: map<Bytes, Bytes>) {
    && (forall k <- keys :: k in headers)
    && (forall k <- headers :: k in keys)
    && (forall i, j :: 0 <= i < j < |keys| ==> keys[i] != keys[j])
  }

  class HttpResponse {
    var statusCode: nat
    var statusMessage: Bytes
    var closeConnection: bool
    var headers: map<Bytes, Bytes>
    var body: Bytes

    function Value(): Reply
      reads this
    {
      Reply(statusCode, statusMessage, closeConnection, headers, body)
    }

    constructor (close: bool)
      ensures Value() == Reply(0, [], close, map[], [])
    {
      statusCode, statusMessage, closeConnection, headers, body := 0, [], close, map[], [];
    }

    /** The setters, all at once: what `httpCallback_` leaves in the response. */
    method Assign(r: Reply)
      modifies this
      ensures Value() == r
    {
      statusCode, statusMessage, closeConnection := r.statusCode, r.statusMessage, r.close;
      headers, body := r.headers, r.body;
    }

    method AddHeader(key: Bytes, value: Bytes)
      modifies this`headers
      ensures headers == old(headers)[key := value]
    {
      headers := headers[key := value];
    }

    method AppendLine(output: Buffer, key: Bytes, value: Bytes)
      requires output.Valid()
      modifies output, output.storage
      ensures output.Valid() && fresh({output.storage} - {old(output.storage)})
      ensures output.Contents() == old(output.Contents()) + (key + ": " + value + "\r\n")
    {
      ghost var start := output.Contents();
      output.Append(key);
      output.Append(COLON);
      Regroup(start, key, COLON);
      output.Append(value);
      Regroup(start, key + COLON, value);
      output.Append(CRLF);
      Regroup(start, KeyLine(key, value), CRLF);
    }

    /** The loop over `headers_`; the keys come in whatever order the map yields them. */
    method AppendHeaders(output: Buffer) returns (ghost keys: seq<Bytes>)
      requires output.Valid()
      modifies output, output.storage
      ensures output.Valid() && fresh({output.storage} - {old(output.storage)})
      ensures Enumerates(keys, headers)
      ensures output.Contents() == old(output.Contents()) + KeyLines(keys, headers)
    {
      keys := [];
      var left := headers.Keys;
      while left != {}
        invariant output.Valid() && fresh({output.storage} - {old(output.storage)})
        invariant left <= headers.Keys
        invariant forall k :: k in keys <==> k in headers && k !in left
        invariant forall i, j :: 0 <= i < j < |keys| ==> keys[i] != keys[j]
        invariant output.Contents() == old(output.Contents()) + KeyLines(keys, headers)
        decreases left
      {
        var key :| key in left;
        ghost var start := old(output.Contents());
        AppendLine(output, key, headers[key]);
        KeyLinesSnoc(keys, key, headers);
        Regroup(start, KeyLines(keys, headers), KeyLine(key, headers[key]) + CRLF);
        keys := keys + [key];
        left := left - {key};
      }
    }

    method AppendStatus(output: Buffer)
      requires output.Valid()
      modifies output, output.storage
      ensures output.Valid() && fresh({output.storage} - {old(output.storage)})
      ensures output.Contents() == old(output.Contents()) + StatusLine(Value())
    {
      ghost var start := output.Contents();
      var status := Formatted(STATUS_START + Decimal(statusCode) + SPACE);
      output.Append(status);
      output.Append(statusMessage);
      Regroup(start, status, statusMessage);
      output.Append(CRLF);
      Regroup(start, status + statusMessage, CRLF);
    }

    method AppendGenerated(output: Buffer)
      requires output.Valid()
      modifies output, output.storage
      ensures output.Valid() && fresh({output.storage} - {old(output.storage)})
      ensures output.Contents() == old(output.Contents()) + GeneratedLines(Value())
    {
      ghost var start := output.Contents();
      if closeConnection {
        output.Append(CLOSE + CRLF);
      } else {
        var line := Formatted(LENGTH_START + Decimal(|body|) + CRLF);
        output.Append(line);
        output.Append(KEEP_ALIVE + CRLF);
        Regroup(start, line, KEEP_ALIVE + CRLF);
      }
    }

    method AppendToBuffer(output: Buffer) returns (ghost keys: seq<Bytes>)
      requires output.Valid()
      modifies output, output.storage
      ensures output.Valid() && fresh({output.storage} - {old(output.storage)})
      ensures Enumerates(keys, headers)
      ensures output.Contents() == old(output.Contents()) + StatusLine(Value()) + AfterStatus(Value(), keys)
    {
      AppendStatus(output);
      ghost var start, generated := output.Contents(), GeneratedLines(Value());
      AppendGenerated(output);
      keys := AppendHeaders(output);
      ghost var lines := KeyLines(keys, headers);
      Regroup(start, generated, lines);
      output.Append(CRLF);
      Regroup(start, generated + lines, CRLF);
      output.Append(body);
      Regroup(start, generated + lines + CRLF, body);
    }
  }

  lemma {:induction false} KeyLinesSnoc(keys: seq<Bytes>, key: Bytes, headers: map<Bytes, Bytes>)
    requires (forall k <- keys :: k in headers) && key in headers
    ensures forall k <- keys + [key] :: k in headers
    ensures KeyLines(keys + [key], headers)
         == KeyLines(keys, headers) + (KeyLine(key, headers[key]) + CRLF)
  {
    if keys != [] {
      KeyLinesSnoc(keys[1..], key, headers);
      assert (keys + [key])[1..] == keys[1..] + [key];
    }
  }

  // ---------- the status line ----------

  /** Decimal digits whose value is `n`. */
  predicate IsNumber(s: string, n: nat) {
    s != [] && (forall i :: 0 <= i < |s| ==> IsDigit(s[i])) && DecimalValue(s) == n
  }

  /** The version, a number and a reason, with one blank between them. */
  predicate IsStatusLine(line: string, code: nat, reason: string) {
    && |line| > 9 && line[..9] == "HTTP/1.1 "
    && var end := 9 + Find(line[9..], ' ');
       end < |line| && IsNumber(line[9..end], code) && line[end + 1..] == reason
  }

  lemma StatusLineIs(line: string, digits: string, code: nat, reason: string)
    requires IsNumber(digits, code) && line == "HTTP/1.1 " + digits + " " + reason
    ensures IsStatusLine(line, code, reason)
  {
    assert line[9..] == digits + " " + reason;
    FindSpace(digits, reason);
    assert line[9..][..|digits|] == line[9..9 + |digits|];
    assert line[9..][|digits| + 1..] == line[9 + |digits| + 1..];
  }

  lemma BreakAfter(head: string, tail: string)
    requires CrlfFree(head) && CrlfFree(tail) && head != [] && head[|head| - 1] == ' '
    ensures CrlfFree(head + tail)
  {
    assert forall i :: CrlfAt(head + tail, i) ==> CrlfAt(head, i) || CrlfAt(tail, i - |head|);
  }

  /** An `int` fits the 32-byte buffer, so the first line of a response reads back as version, code and reason, and
      everything after it follows. */
  lemma StatusLineReads(r: Reply, after: Bytes)
    requires r.statusCode <= 0x7FFF_FFFF && CrlfFree(r.statusMessage)
    ensures var cut := FirstLine(StatusLine(r) + after);
            cut.Line? && IsStatusLine(cut.line, r.statusCode, r.statusMessage) && cut.rest == after
  {
    var digits := Decimal(r.statusCode);
    DecimalRoundTrip(r.statusCode);
    DecimalLength(r.statusCode, 10);
    assert Pow10(10) == 10_000_000_000;
    var head := "HTTP/1.1 " + digits + " ";
    LineWithoutCr(head);
    BreakAfter(head, r.statusMessage);
    FirstLineIs(head + r.statusMessage, after);
    StatusLineIs(head + r.statusMessage, digits, r.statusCode, r.statusMessage);
  }

  lemma LineWithoutCr(s: string)
    requires forall i :: 0 <= i < |s| ==> s[i] != '\r'
    ensures CrlfFree(s)
  {
  }

  // ---------- round trip ----------

  /** Colon-free keys, trimmed values, and no CRLF inside a line. */
  ghost predicate Sound(headers: map<Bytes, Bytes>) {
    forall k <- headers :: ':' !in k && Trimmed(headers[k]) && CrlfFree(KeyLine(k, headers[k]))
  }

  /** What a reader should find: the generated fields, overridden by the headers that were set. */
  function Expected(r: Reply): map<string, string> {
    (if r.close then map["Connection" := "close"]
     else map["Content-Length" := Decimal(|r.body|), "Connection" := "Keep-Alive"]) + r.headers
  }

  predicate LengthFits(r: Reply) {
    |r.body| < 10_000_000_000_000
  }

  lemma LengthFitsIff(r: Reply)
    ensures LengthFits(r) <==> |LengthLine(r)| < FORMAT_SIZE
  {
    DecimalLength(|r.body|, LENGTH_DIGITS);
    assert Pow10(13) == 10_000_000_000_000;
  }

  function UserLines(keys: seq<Bytes>, headers: map<Bytes, Bytes>): seq<string>
    requires forall k <- keys :: k in headers
  {
    if keys == [] then [] else [KeyLine(keys[0], headers[keys[0]])] + UserLines(keys[1..], headers)
  }

  lemma KeyLineSound(key: Bytes, headers: map<Bytes, Bytes>)
    requires key in headers && Sound(headers)
    ensures CrlfFree(KeyLine(key, headers[key])) && ':' in KeyLine(key, headers[key])
  {
    assert KeyLine(key, headers[key])[|key|] == ':';
  }

  lemma {:induction false} UserLinesSound(keys: seq<Bytes>, headers: map<Bytes, Bytes>)
    requires (forall k <- keys :: k in headers) && Sound(headers)
    ensures forall i :: 0 <= i < |UserLines(keys, headers)| ==>
              CrlfFree(UserLines(keys, headers)[i]) && ':' in UserLines(keys, headers)[i]
  {
    if keys != [] {
      UserLinesSound(keys[1..], headers);
      KeyLineSound(keys[0], headers);
      assert UserLines(keys, headers)[1..] == UserLines(keys[1..], headers);
    }
  }

  lemma {:induction false} UserLinesPrint(keys: seq<Bytes>, headers: map<Bytes, Bytes>)
    requires forall k <- keys :: k in headers
    ensures HeaderBlock(UserLines(keys, headers), "") == KeyLines(keys, headers) + CRLF
  {
    if keys != [] {
      UserLinesPrint(keys[1..], headers);
      assert UserLines(keys, headers)[1..] == UserLines(keys[1..], headers);
    }
  }

  lemma KeyLineReads(key: Bytes, value: Bytes)
    requires ':' !in key && Trimmed(value)
    ensures ':' in KeyLine(key, value)
    ensures HeaderField(KeyLine(key, value)) == key && ValueOf(KeyLine(key, value)) == value
  {
    var line := KeyLine(key, value);
    assert line[|key|] == ':';
    FindUnique(line, ':', |key|);
    assert line[..|key|] == key;
    assert line[|key| + 1..] == " " + value + "";
    TrimUnwraps(" ", value, "");
  }

  lemma {:induction false} UserLinesFold(base: map<string, string>, keys: seq<Bytes>, headers: map<Bytes, Bytes>)
    requires (forall k <- keys :: k in headers) && Sound(headers)
    ensures forall i :: 0 <= i < |UserLines(keys, headers)| ==> ':' in UserLines(keys, headers)[i]
    ensures Fold(base, UserLines(keys, headers)) == base + OnKeys(keys, headers)
    decreases |keys|
  {
    UserLinesSound(keys, headers);
    if keys == [] {
      assert base + OnKeys(keys, headers) == base;
    } else {
      var key := keys[0];
      assert key in headers;
      KeyLineReads(key, headers[key]);
      UserLinesFold(base[key := headers[key]], keys[1..], headers);
      assert UserLines(keys, headers)[1..] == UserLines(keys[1..], headers);
      OnKeysStep(base, keys, headers);
    }
  }

  function OnKeys(keys: seq<Bytes>, headers: map<Bytes, Bytes>): map<string, string>
    requires forall k <- keys :: k in headers
  {
    map k | k in keys :: headers[k]
  }

  lemma OnKeysStep(base: map<string, string>, keys: seq<Bytes>, headers: map<Bytes, Bytes>)
    requires keys != [] && forall k <- keys :: k in headers
    ensures base[keys[0] := headers[keys[0]]] + OnKeys(keys[1..], headers) == base + OnKeys(keys, headers)
  {
    assert keys == [keys[0]] + keys[1..];
  }

  /** The lines a reader sees in the generated part; a cut Content-Length line swallows the next one. */
  function GeneratedFields(r: Reply): seq<string> {
    if r.close then [CLOSE]
    else if LengthFits(r) then [LENGTH_START + Decimal(|r.body|), KEEP_ALIVE]
    else [Formatted(LengthLine(r)) + KEEP_ALIVE]
  }

  lemma GeneratedPrint(r: Reply)
    ensures Lines(GeneratedFields(r)) == GeneratedLines(r)
  {
    LengthFitsIff(r);
    var fields := GeneratedFields(r);
    assert Lines(fields[1..]) == if r.close || !LengthFits(r) then "" else fields[1] + CRLF;
  }

  /** A cut line keeps its CR at most in place 30, where no LF follows it. */
  lemma CutShape(start: Bytes, digits: Bytes, next: Bytes)
    requires |start| == 16 && |digits| >= 14 && |next| > 0
    requires forall i :: 0 <= i < |start| ==> start[i] != '\r'
    requires forall i :: 0 <= i < |digits| ==> digits[i] != '\r'
    requires forall i :: 0 <= i < |next| ==> next[i] != '\r'
    requires next[0] != '\n'
    ensures var line := (start + digits + CRLF)[..31] + next;
            && |line| == 31 + |next|
            && line[..16] == start && line[16] == digits[0] && line[|line| - 1] == next[|next| - 1]
            && CrlfFree(line)
  {
    var line := (start + digits + CRLF)[..31] + next;
    assert forall i :: 0 <= i < 16 ==> line[i] == start[i];
    assert forall i :: 16 <= i < 30 ==> line[i] == digits[i - 16];
    assert forall i :: 31 <= i < |line| ==> line[i] == next[i - 31];
  }

  lemma CutLine(r: Reply)
    requires !LengthFits(r)
    ensures var line := Formatted(LengthLine(r)) + KEEP_ALIVE;
            && |line| == 53
            && line[..16] == LENGTH_START
            && IsDigit(line[16])
            && line[52] == 'e'
            && CrlfFree(line)
  {
    LengthFitsIff(r);
    CutShape(LENGTH_START, Decimal(|r.body|), KEEP_ALIVE);
  }

  lemma LengthFieldReads(line: string)
    requires |line| > 16 && line[..16] == LENGTH_START
    requires !IsSpace(line[16]) && !IsSpace(line[|line| - 1])
    ensures ':' in line && HeaderField(line) == LENGTH_KEY && ValueOf(line) == line[16..]
  {
    assert forall i :: 0 <= i < 16 ==> line[i] == LENGTH_START[i];
    FindUnique(line, ':', 14);
    ColonFound(line);
    assert line[15..] == " " + line[16..] + "";
    TrimUnwraps(" ", line[16..], "");
  }

  lemma ConnectionReads(line: string, value: Bytes)
    requires (line == CLOSE && value == "close") || (line == KEEP_ALIVE && value == "Keep-Alive")
    ensures CrlfFree(line) && ':' in line
    ensures HeaderField(line) == CONNECTION_KEY && ValueOf(line) == value
  {
    LineWithoutCr(line);
    assert line == KeyLine(CONNECTION_KEY, value);
    KeyLineReads(CONNECTION_KEY, value);
  }

  /** What the generated lines fold to. */
  function GeneratedMap(r: Reply): map<string, string> {
    if r.close then map[CONNECTION_KEY := "close"]
    else if LengthFits(r) then map[LENGTH_KEY := Decimal(|r.body|), CONNECTION_KEY := "Keep-Alive"]
    else map[LENGTH_KEY := (Formatted(LengthLine(r)) + KEEP_ALIVE)[16..]]
  }

  lemma FoldOne(base: map<string, string>, line: string)
    requires ':' in line
    ensures Fold(base, [line]) == base[HeaderField(line) := ValueOf(line)]
  {
    assert [line][1..] == [];
  }

  lemma FoldTwo(base: map<string, string>, first: string, second: string)
    requires ':' in first && ':' in second
    ensures Fold(base, [first, second])
         == base[HeaderField(first) := ValueOf(first)][HeaderField(second) := ValueOf(second)]
  {
    FoldOne(base[HeaderField(first) := ValueOf(first)], second);
    assert [first, second][1..] == [second];
  }

  lemma LengthLineReads(r: Reply)
    requires LengthFits(r)
    ensures var line := LENGTH_START + Decimal(|r.body|);
            && CrlfFree(line) && ':' in line
            && HeaderField(line) == LENGTH_KEY && ValueOf(line) == Decimal(|r.body|)
  {
    var digits := Decimal(|r.body|);
    var line := LENGTH_START + digits;
    assert line[..16] == LENGTH_START && line[16..] == digits;
    assert forall i :: 16 <= i < |line| ==> line[i] == digits[i - 16];
    assert forall i :: 0 <= i < 16 ==> line[i] == LENGTH_START[i];
    LineWithoutCr(line);
    LengthFieldReads(line);
  }

  ghost predicate FoldsTo(lines: seq<string>, headers: map<string, string>) {
    && (forall i :: 0 <= i < |lines| ==> CrlfFree(lines[i]) && ':' in lines[i])
    && Fold(map[], lines) == headers
  }

  lemma OneFolds(line: string, field: string, value: string)
    requires CrlfFree(line) && ':' in line
    requires HeaderField(line) == field && ValueOf(line) == value
    ensures FoldsTo([line], map[field := value])
  {
    FoldOne(map[], line);
  }

  lemma TwoFold(first: string, second: string)
    requires CrlfFree(first) && ':' in first && CrlfFree(second) && ':' in second
    ensures FoldsTo([first, second],
                    map[HeaderField(first) := ValueOf(first)][HeaderField(second) := ValueOf(second)])
  {
    FoldTwo(map[], first, second);
  }

  lemma GeneratedFold(r: Reply)
    ensures FoldsTo(GeneratedFields(r), GeneratedMap(r))
  {
    var fields := GeneratedFields(r);
    if r.close {
      ConnectionReads(fields[0], "close");
      OneFolds(fields[0], CONNECTION_KEY, "close");
    } else if LengthFits(r) {
      LengthLineReads(r);
      ConnectionReads(fields[1], "Keep-Alive");
      TwoFold(fields[0], fields[1]);
    } else {
      CutLine(r);
      LengthFieldReads(fields[0]);
      OneFolds(fields[0], LENGTH_KEY, fields[0][16..]);
    }
  }

  lemma AllFieldsFold(r: Reply, keys: seq<Bytes>)
    requires Enumerates(keys, r.headers) && Sound(r.headers)
    ensures FoldsTo(GeneratedFields(r) + UserLines(keys, r.headers), GeneratedMap(r) + r.headers)
  {
    GeneratedFold(r);
    UserLinesSound(keys, r.headers);
    UserLinesFold(GeneratedMap(r), keys, r.headers);
    FoldAppend(map[], GeneratedFields(r), UserLines(keys, r.headers));
    assert OnKeys(keys, r.headers) == r.headers;
  }

  lemma AfterStatusIsBlock(r: Reply, keys: seq<Bytes>)
    requires forall k <- keys :: k in r.headers
    ensures AfterStatus(r, keys) == HeaderBlock(GeneratedFields(r) + UserLines(keys, r.headers), "") + r.body
  {
    GeneratedPrint(r);
    UserLinesPrint(keys, r.headers);
    HeaderBlockAppend(GeneratedFields(r), UserLines(keys, r.headers), "");
    Regroup(GeneratedLines(r), KeyLines(keys, r.headers), CRLF);
  }

  /** The bytes after the status line, read back: leftover is the body, and every field is accounted for. */
  lemma ResponseParses(r: Reply, keys: seq<Bytes>, req: Request, time: int)
    requires Enumerates(keys, r.headers) && Sound(r.headers) && req.headers == map[]
    ensures Parse(Context(ExpectHeader, req), AfterStatus(r, keys), time)
         == Outcome(Complete, Context(GotAll, req.(headers := GeneratedMap(r) + r.headers)), r.body)
  {
    AllFieldsFold(r, keys);
    AfterStatusIsBlock(r, keys);
    HeadersParse(req, GeneratedFields(r) + UserLines(keys, r.headers), "", r.body, time);
  }

  /** The round trip is faithful exactly while the length line fits its buffer, or nothing reads that line. */
  lemma ResponseRoundTripIff(r: Reply, keys: seq<Bytes>, req: Request, time: int)
    requires Enumerates(keys, r.headers) && Sound(r.headers) && req.headers == map[]
    ensures var o := Parse(Context(ExpectHeader, req), AfterStatus(r, keys), time);
            && o.status == Complete && o.ctx.state == GotAll && o.rest == r.body
            && (o.ctx.request.headers == Expected(r) <==>
                  r.close || LengthFits(r)
                  || ("Content-Length" in r.headers && "Connection" in r.headers))
  {
    ResponseParses(r, keys, req, time);
    FoundIsExpectedIff(r);
  }

  lemma FoundIsExpectedIff(r: Reply)
    ensures GeneratedMap(r) + r.headers == Expected(r)
       <==> r.close || LengthFits(r) || (LENGTH_KEY in r.headers && CONNECTION_KEY in r.headers)
  {
    if !r.close && !LengthFits(r) {
      CutLine(r);
      var found, expected := GeneratedMap(r) + r.headers, Expected(r);
      if CONNECTION_KEY !in r.headers {
        assert |LENGTH_KEY| != |CONNECTION_KEY|;
        assert CONNECTION_KEY in expected && CONNECTION_KEY !in found;
      } else if LENGTH_KEY !in r.headers {
        assert |LENGTH_KEY| != |CONNECTION_KEY|;
        var cut, digits := found[LENGTH_KEY], Decimal(|r.body|);
        assert cut[|cut| - 1] == 'e' && IsDigit(digits[|digits| - 1]);
        assert expected[LENGTH_KEY] == digits;
      } else {
        assert found == expected;
      }
    }
  }

  /** In particular: bodies under ten terabytes always survive. */
  lemma ResponseRoundTrip(r: Reply, keys: seq<Bytes>, req: Request, time: int)
    requires Enumerates(keys, r.headers) && Sound(r.headers) && req.headers == map[] && LengthFits(r)
    ensures Parse(Context(ExpectHeader, req), AfterStatus(r, keys), time)
         == Outcome(Complete, Context(GotAll, req.(headers := Expected(r))), r.body)
  {
    ResponseParses(r, keys, req, time);
  }
}
