/** The byte stream that the runtime closure digest hashes: length-prefixed
    records for the image, the platform, the two commands and the sorted inputs.
    A string here is a sequence of bytes. */
module RuntimeFraming {
  import opened Basics
  import opened NameOrder

  datatype Runtime = Runtime(image: string, platform: string, run: seq<string>, verify: seq<string>, inputs: map<string, string>)
  datatype Record = Record(kind: string, value: string)

  predicate Hex(c: char) {
    '0' <= c <= '9' || 'a' <= c <= 'f'
  }

  predicate ValidSHA256(s: string) {
    |s| == 7 + 64 && "sha256:" <= s && forall i :: 7 <= i < |s| ==> Hex(s[i])
  }

  predicate ValidPlatform(s: string) {
    s == "linux/amd64" || s == "linux/arm64"
  }

  predicate ValidRuntime(rt: Runtime) {
    ValidSHA256(rt.image) && ValidPlatform(rt.platform) && forall m :: m in rt.inputs ==> ValidSHA256(rt.inputs[m])
  }

  // ---------------------------------------------------------------- writing

  function Digit(d: nat): (c: char)
    requires d < 10
  {
    ('0' as int + d) as char
  }

  function Decimal(n: nat): (s: string) {
    if n < 10 then [Digit(n)] else Decimal(n / 10) + [Digit(n % 10)]
  }

  /** Length, colon, text, terminator. */
  function Frame(text: string, end: char): (s: string) {
    Decimal(|text|) + (":" + (text + [end]))
  }

  function Encode(r: Record): (s: string) {
    Frame(r.kind, ':') + Frame(r.value, '\n')
  }

  function Stream(rs: seq<Record>): (s: string) {
    if rs == [] then "" else Encode(rs[0]) + Stream(rs[1..])
  }

  function ArgRecord(name: string, i: nat, arg: string): (r: Record) {
    Record(name + "[" + Decimal(i) + "]", arg)
  }

  function ArgRecords(name: string, args: seq<string>): (rs: seq<Record>) {
    if args == [] then [] else ArgRecords(name, args[..|args| - 1]) + [ArgRecord(name, |args| - 1, args[|args| - 1])]
  }

  function InputRecords(inputs: map<string, string>, mounts: seq<string>): (rs: seq<Record>)
    requires forall m :: m in mounts ==> m in inputs
  {
    if mounts == [] then [] else
      var m := mounts[|mounts| - 1];
      InputRecords(inputs, mounts[..|mounts| - 1]) + [Record("input.mount", m), Record("input.digest", inputs[m])]
  }

  function Header(rt: Runtime): (rs: seq<Record>) {
    [Record("image", rt.image), Record("platform", rt.platform)]
  }

  function Body(rt: Runtime, mounts: seq<string>): (rs: seq<Record>)
    requires forall m :: m in mounts ==> m in rt.inputs
  {
    ArgRecords("run", rt.run) + ArgRecords("verify", rt.verify) + InputRecords(rt.inputs, mounts)
  }

  ghost predicate Framed(rt: Runtime, stream: string) {
    exists mounts :: FramedBy(rt, mounts, stream)
  }

  ghost predicate FramedBy(rt: Runtime, mounts: seq<string>, stream: string) {
    && StrictlySorted(mounts) && (forall m :: m in mounts <==> m in rt.inputs)
    && stream == Stream(Header(rt) + Body(rt, mounts))
  }

  lemma {:induction false} StreamConcat(a: seq<Record>, b: seq<Record>)
    ensures Stream(a + b) == Stream(a) + Stream(b)
  {
    if a == [] {
      assert a + b == b;
    } else {
      assert (a + b)[1..] == a[1..] + b;
      StreamConcat(a[1..], b);
    }
  }

  /** One record of ten bytes, byte by byte. */
  lemma EncodeExample(arg: string)
    requires |arg| == 10
    ensures Encode(ArgRecord("run", 0, arg)) == "6:run[0]:10:" + arg + "\n"
  {
    assert Decimal(10) == "1" + [Digit(0)];
    assert ArgRecord("run", 0, arg).kind == "run[0]";
    assert Frame("run[0]", ':') == "6:run[0]:";
    assert Frame(arg, '\n') == "10:" + (arg + "\n");
  }

  lemma ArgRecordsGrow(name: string, args: seq<string>, i: nat)
    requires i < |args|
    ensures ArgRecords(name, args[..i + 1]) == ArgRecords(name, args[..i]) + [ArgRecord(name, i, args[i])]
  {
    assert args[..i + 1][..i] == args[..i];
  }

  lemma InputRecordsGrow(inputs: map<string, string>, mounts: seq<string>, i: nat)
    requires i < |mounts| && forall m :: m in mounts ==> m in inputs
    ensures InputRecords(inputs, mounts[..i + 1])
      == InputRecords(inputs, mounts[..i]) + [Record("input.mount", mounts[i])] + [Record("input.digest", inputs[mounts[i]])]
  {
    assert mounts[..i + 1][..i] == mounts[..i];
  }

  /** The hasher and its buffered input. */
  class Hasher {
    ghost var records: seq<Record>
    var fed: string

    constructor ()
      ensures records == [] && Valid()
    {
      records, fed := [], "";
    }

    ghost predicate Valid()
      reads this
    {
      fed == Stream(records)
    }

    method Write(kind: string, value: string)
      requires Valid()
      modifies this
      ensures Valid() && records == old(records) + [Record(kind, value)]
    {
      var r := Record(kind, value);
      StreamConcat(records, [r]);
      assert Stream([r]) == Encode(r) + Stream([]);
      fed := fed + Encode(r);
      records := records + [r];
    }

    method WriteArgs(name: string, args: seq<string>)
      requires Valid()
      modifies this
      ensures Valid() && records == old(records) + ArgRecords(name, args)
    {
      for i := 0 to |args|
        invariant Valid() && records == old(records) + ArgRecords(name, args[..i])
      {
        ArgRecordsGrow(name, args, i);
        Write(name + "[" + Decimal(i) + "]", args[i]);
      }
      assert args[..|args|] == args;
    }

    method WriteInputs(inputs: map<string, string>, mounts: seq<string>) returns (ok: bool)
      requires Valid() && forall m :: m in mounts ==> m in inputs
      modifies this
      ensures ok <==> forall m :: m in mounts ==> ValidSHA256(inputs[m])
      ensures ok ==> Valid() && records == old(records) + InputRecords(inputs, mounts)
    {
      for i := 0 to |mounts|
        invariant Valid() && records == old(records) + InputRecords(inputs, mounts[..i])
        invariant forall j :: 0 <= j < i ==> ValidSHA256(inputs[mounts[j]])
      {
        InputRecordsGrow(inputs, mounts, i);
        if !ValidSHA256(inputs[mounts[i]]) { return false; }
        Write("input.mount", mounts[i]);
        Write("input.digest", inputs[mounts[i]]);
      }
      assert mounts[..|mounts|] == mounts;
      return true;
    }
  
    method WriteRuntime(rt: Runtime, mounts: seq<string>) returns (ok: bool)
      requires records == [] && Valid() && forall m :: m in mounts ==> m in rt.inputs
      modifies this
      ensures ok <==> forall m :: m in mounts ==> ValidSHA256(rt.inputs[m])
      ensures ok ==> fed == Stream(Header(rt) + Body(rt, mounts))
    {
      Write("image", rt.image);
      Write("platform", rt.platform);
      assert records == Header(rt);
      WriteArgs("run", rt.run);
      WriteArgs("verify", rt.verify);
      ghost var commands := ArgRecords("run", rt.run) + ArgRecords("verify", rt.verify);
      assert records == Header(rt) + commands;
      ok := WriteInputs(rt.inputs, mounts);
      if ok {
        assert Body(rt, mounts) == commands + InputRecords(rt.inputs, mounts);
        assert records == Header(rt) + Body(rt, mounts);
      }
    }
  }

  /** The digest, whatever the hash and whatever order the map yields its keys. */
  method RuntimeClosureDigest(rt: Runtime, hash: string -> string) returns (r: Option<string>)
    ensures r.Some? <==> ValidRuntime(rt)
    ensures r.Some? ==> forall stream :: Framed(rt, stream) ==> r.value == hash(stream)
    ensures r.Some? ==> exists stream :: Framed(rt, stream) && r.value == hash(stream)
  {
    if !ValidSHA256(rt.image) || !ValidPlatform(rt.platform) { return None; }
    var h := new Hasher();
    var mounts := SortNames(rt.inputs.Keys);
    assert forall m :: m in mounts <==> m in Elements(mounts);
    var ok := h.WriteRuntime(rt, mounts);
    if !ok { return None; }
    assert FramedBy(rt, mounts, h.fed);
    forall stream | Framed(rt, stream) ensures stream == h.fed { FramedUnique(rt, stream, h.fed); }
    return Some(hash(h.fed));
  }

  // ---------------------------------------------------------------- one stream per runtime

  /** Sorting the mounts makes the stream a function of the runtime. */
  lemma FramedUnique(rt: Runtime, s: string, t: string)
    requires Framed(rt, s) && Framed(rt, t)
    ensures s == t
  {
    var a :| FramedBy(rt, a, s);
    var b :| FramedBy(rt, b, t);
    SortedUnique(a, b);
  }

  // ---------------------------------------------------------------- reading

  datatype Number = Number(n: nat, rest: string)

  function ReadNumber(s: string, acc: nat): (r: Option<Number>)
    ensures r.Some? ==> |r.value.rest| < |s|
  {
    if s == "" then None
    else if s[0] == ':' then Some(Number(acc, s[1..]))
    else if '0' <= s[0] <= '9' then ReadNumber(s[1..], acc * 10 + (s[0] as int - '0' as int))
    else None
  }

  datatype Field = Field(text: string, rest: string)

  function ReadField(s: string, end: char): (r: Option<Field>)
    ensures r.Some? ==> |r.value.rest| < |s|
  {
    var k := ReadNumber(s, 0);
    if k.Some? && k.value.n < |k.value.rest| && k.value.rest[k.value.n] == end
    then Some(Field(k.value.rest[..k.value.n], k.value.rest[k.value.n + 1..]))
    else None
  }

  datatype Parsed = Parsed(record: Record, rest: string)

  function ReadRecord(s: string): (r: Option<Parsed>)
    ensures r.Some? ==> |r.value.rest| < |s|
  {
    match ReadField(s, ':')
    case None => None
    case Some(kind) =>
      match ReadField(kind.rest, '\n')
      case None => None
      case Some(value) => Some(Parsed(Record(kind.text, value.text), value.rest))
  }

  function Decode(s: string): (r: Option<seq<Record>>)
    decreases |s|
  {
    if s == "" then Some([]) else
    match ReadRecord(s)
    case None => None
    case Some(p) =>
      match Decode(p.rest)
      case None => None
      case Some(rs) => Some([p.record] + rs)
  }

  function Values(rs: seq<Record>, c: char): (vs: seq<string>) {
    if rs == [] then []
    else (if rs[0].kind != "" && rs[0].kind[0] == c then [rs[0].value] else []) + Values(rs[1..], c)
  }

  function Pairs(vs: seq<string>): (m: map<string, string>) {
    if |vs| < 2 then map[] else Pairs(vs[..|vs| - 2])[vs[|vs| - 2] := vs[|vs| - 1]]
  }

  /** Reads a runtime back from the stream. */
  function Unframe(s: string): (r: Option<Runtime>) {
    match Decode(s)
    case None => None
    case Some(rs) => if |rs| < 2 then None else Some(Assemble(rs[0].value, rs[1].value, rs[2..]))
  }

  function Assemble(image: string, platform: string, body: seq<Record>): (rt: Runtime) {
    Runtime(image, platform, Values(body, 'r'), Values(body, 'v'), Pairs(Values(body, 'i')))
  }

  // ---------------------------------------------------------------- the round trip

  lemma {:induction false} ReadDecimal(n: nat, rest: string)
    ensures ReadNumber(Decimal(n) + rest, 0) == ReadNumber(rest, n)
  {
    if n < 10 {
      assert (Decimal(n) + rest)[1..] == rest;
    } else {
      var tail := [Digit(n % 10)] + rest;
      ReadDecimal(n / 10, tail);
      assert Decimal(n) + rest == Decimal(n / 10) + tail;
      assert tail[1..] == rest;
    }
  }

  lemma ReadFrame(text: string, end: char, rest: string)
    ensures ReadField(Frame(text, end) + rest, end) == Some(Field(text, rest))
  {
    var after := text + [end] + rest;
    ReadDecimal(|text|, ":" + after);
    assert Frame(text, end) + rest == Decimal(|text|) + (":" + after);
    assert (":" + after)[1..] == after;
    assert after[..|text|] == text && after[|text| + 1..] == rest;
  }

  lemma ReadEncoded(r: Record, rest: string)
    ensures ReadRecord(Encode(r) + rest) == Some(Parsed(r, rest))
  {
    ReadFrame(r.value, '\n', rest);
    ReadFrame(r.kind, ':', Frame(r.value, '\n') + rest);
    assert Encode(r) + rest == Frame(r.kind, ':') + (Frame(r.value, '\n') + rest);
  }

  /** Decoding undoes framing: no value can imitate a record boundary. */
  lemma {:induction false} DecodeStream(rs: seq<Record>)
    ensures Decode(Stream(rs)) == Some(rs)
  {
    if rs != [] {
      ReadEncoded(rs[0], Stream(rs[1..]));
      DecodeStream(rs[1..]);
      assert rs == [rs[0]] + rs[1..];
      assert Encode(rs[0]) != "";
    }
  }

  lemma {:induction false} ValuesConcat(a: seq<Record>, b: seq<Record>, c: char)
    ensures Values(a + b, c) == Values(a, c) + Values(b, c)
  {
    if a == [] {
      assert a + b == b;
    } else {
      assert (a + b)[1..] == a[1..] + b;
      ValuesConcat(a[1..], b, c);
    }
  }

  lemma {:induction false} ValuesOfArgs(name: string, args: seq<string>, c: char)
    requires name != ""
    ensures Values(ArgRecords(name, args), c) == if name[0] == c then args else []
  {
    if args != [] {
      var front, last := args[..|args| - 1], args[|args| - 1];
      ValuesOfArgs(name, front, c);
      var r := ArgRecord(name, |args| - 1, last);
      ValuesConcat(ArgRecords(name, front), [r], c);
      assert r.kind[0] == name[0];
      assert [r][1..] == [];
      assert args == front + [last];
    }
  }

  function Flat(inputs: map<string, string>, mounts: seq<string>): (vs: seq<string>)
    requires forall m :: m in mounts ==> m in inputs
  {
    if mounts == [] then [] else
      Flat(inputs, mounts[..|mounts| - 1]) + [mounts[|mounts| - 1], inputs[mounts[|mounts| - 1]]]
  }

  lemma {:induction false} ValuesOfInputs(inputs: map<string, string>, mounts: seq<string>, c: char)
    requires forall m :: m in mounts ==> m in inputs
    ensures Values(InputRecords(inputs, mounts), c) == if c == 'i' then Flat(inputs, mounts) else []
  {
    if mounts != [] {
      var front, m := mounts[..|mounts| - 1], mounts[|mounts| - 1];
      ValuesOfInputs(inputs, front, c);
      var a, b := Record("input.mount", m), Record("input.digest", inputs[m]);
      ValuesConcat(InputRecords(inputs, front), [a, b], c);
      assert [a, b] == [a] + [b] && [a][1..] == [] && [b][1..] == [];
      ValuesConcat([a], [b], c);
    }
  }

  lemma {:induction false} PairsOfFlat(inputs: map<string, string>, mounts: seq<string>)
    requires forall m :: m in mounts ==> m in inputs
    ensures Pairs(Flat(inputs, mounts)) == map m | m in inputs && m in mounts :: inputs[m]
  {
    if mounts != [] {
      var front, m := mounts[..|mounts| - 1], mounts[|mounts| - 1];
      PairsOfFlat(inputs, front);
      var vs := Flat(inputs, mounts);
      assert vs[..|vs| - 2] == Flat(inputs, front) && vs[|vs| - 2] == m && vs[|vs| - 1] == inputs[m];
      assert mounts == front + [m];
    }
  }

  lemma ValuesOfBody(rt: Runtime, mounts: seq<string>, c: char)
    requires forall m :: m in mounts ==> m in rt.inputs
    ensures Values(Body(rt, mounts), c) ==
      if c == 'r' then rt.run else if c == 'v' then rt.verify else if c == 'i' then Flat(rt.inputs, mounts) else []
  {
    ValuesOfArgs("run", rt.run, c);
    ValuesOfArgs("verify", rt.verify, c);
    ValuesOfInputs(rt.inputs, mounts, c);
    ValuesOfParts(ArgRecords("run", rt.run), ArgRecords("verify", rt.verify), InputRecords(rt.inputs, mounts), c);
  }

  lemma ValuesOfParts(a: seq<Record>, b: seq<Record>, d: seq<Record>, c: char)
    ensures Values(b, c) == [] && Values(d, c) == [] ==> Values(a + b + d, c) == Values(a, c)
    ensures Values(a, c) == [] && Values(d, c) == [] ==> Values(a + b + d, c) == Values(b, c)
    ensures Values(a, c) == [] && Values(b, c) == [] ==> Values(a + b + d, c) == Values(d, c)
  {
    ValuesConcat(a + b, d, c);
    ValuesConcat(a, b, c);
  }

  /** The stream determines everything that went into it. */
  lemma UnframeFramed(rt: Runtime, s: string)
    requires Framed(rt, s)
    ensures Unframe(s) == Some(rt)
  {
    var mounts :| FramedBy(rt, mounts, s);
    var rs := Header(rt) + Body(rt, mounts);
    DecodeStream(rs);
    assert rs[2..] == Body(rt, mounts) && rs[0].value == rt.image && rs[1].value == rt.platform;
    AssembleBody(rt, mounts);
  }

  lemma InputsBack(inputs: map<string, string>, mounts: seq<string>)
    requires forall m :: m in mounts <==> m in inputs
    ensures Pairs(Flat(inputs, mounts)) == inputs
  {
    PairsOfFlat(inputs, mounts);
    assert (map m | m in inputs && m in mounts :: inputs[m]) == inputs;
  }

  lemma AssembleBody(rt: Runtime, mounts: seq<string>)
    requires forall m :: m in mounts <==> m in rt.inputs
    ensures Assemble(rt.image, rt.platform, Body(rt, mounts)) == rt
  {
    ValuesOfBody(rt, mounts, 'r');
    ValuesOfBody(rt, mounts, 'v');
    ValuesOfBody(rt, mounts, 'i');
    InputsBack(rt.inputs, mounts);
  }

  /** Different runtimes never feed the hash the same bytes. */
  lemma FramingInjective(a: Runtime, b: Runtime, s: string)
    requires Framed(a, s) && Framed(b, s)
    ensures a == b
  {
    UnframeFramed(a, s);
    UnframeFramed(b, s);
  }
}
