/** Rewriting one Syncthing local announcement: parse the protobuf fields, replace
    unspecified addresses by the sender's, copy everything else byte for byte. */
module Announcement {
  import opened Wrappers
  import opened ByteStrings
  import opened Decimals
  import opened Varint

  const MAGIC: Bytes := [0x2e, 0xa7, 0xd9, 0x0b]
  const MAX_PACKET_BYTES := 8192
  const MAX_ADDRESSES := 32
  const MAX_ADDRESS_BYTES := 512
  const DEVICE_ID_BYTES := 32
  const ADDRESS_KEY: nat := 18

  // ----- protobuf fields -----

  /** One field: `raw` is all of its bytes, `value` the payload of a length-delimited one. */
  datatype Field = Field(number: nat, wire: nat, value: Bytes, raw: Bytes)

  /** After the key: how many bytes precede the payload and how long the payload is. */
  function Body(b: Bytes, wire: nat): (r: Option<(nat, nat)>)
    ensures r.Some? ==> r.value.0 + r.value.1 <= |b|
  {
    if wire == 1 then (if |b| < 8 then None else Some((8, 0)))
    else if wire == 5 then (if |b| < 4 then None else Some((4, 0)))
    else if wire == 0 || wire == 2 then
      match Read(b, MAX_VARINT_BYTES)
      case None => None
      case Some((v, m)) =>
        if wire == 0 then Some((m, 0))
        else if m + v > |b| then None
        else Some((m, v))
    else None
  }

  /** The field at the front of `d`. */
  function ReadField(d: Bytes): (r: Option<Field>)
    ensures r.Some? ==> 1 <= |r.value.raw| <= |d| && r.value.raw == d[..|r.value.raw|]
  {
    match Read(d, MAX_VARINT_BYTES)
    case None => None
    case Some((key, n)) =>
      if key / 8 == 0 then None
      else match Body(d[n..], key % 8)
        case None => None
        case Some((skip, length)) =>
          Some(Field(key / 8, key % 8, d[n..][skip..skip + length], d[..n + skip + length]))
  }

  function Fields(d: Bytes): Option<seq<Field>> {
    if d == [] then Some([])
    else match ReadField(d)
      case None => None
      case Some(f) =>
        match Fields(d[|f.raw|..])
        case None => None
        case Some(rest) => Some([f] + rest)
  }

  function Raws(fs: seq<Field>): Bytes {
    if fs == [] then [] else fs[0].raw + Raws(fs[1..])
  }

  /** A field is read back from its own bytes whatever follows them. */
  ghost predicate Reparses(f: Field) {
    f.raw != [] && forall tail: Bytes :: ReadField(f.raw + tail) == Some(f)
  }

  lemma ReadFieldReparses(d: Bytes)
    requires ReadField(d).Some?
    ensures Reparses(ReadField(d).value)
  {
    var f := ReadField(d).value;
    forall tail: Bytes
      ensures ReadField(f.raw + tail) == Some(f)
    {
      ReadFieldLocal(d, tail);
    }
  }

  lemma BodyLocal(b: Bytes, wire: nat, tail: Bytes)
    requires Body(b, wire).Some?
    ensures var (skip, length) := Body(b, wire).value;
            Body(b[..skip + length] + tail, wire) == Body(b, wire)
  {
    var (skip, length) := Body(b, wire).value;
    if wire == 0 || wire == 2 {
      ReadLocal(b, MAX_VARINT_BYTES, b[skip..skip + length] + tail);
      assert b[..skip + length] + tail == b[..skip] + (b[skip..skip + length] + tail);
    }
  }

  lemma ReadFieldLocal(d: Bytes, tail: Bytes)
    requires ReadField(d).Some?
    ensures ReadField(ReadField(d).value.raw + tail) == ReadField(d)
  {
    hide Read, Body;
    var (key, n) := Read(d, MAX_VARINT_BYTES).value;
    var (skip, length) := Body(d[n..], key % 8).value;
    var body := d[n..][..skip + length];
    var e := ReadField(d).value.raw + tail;
    assert e == d[..n] + (body + tail);
    ReadLocal(d, MAX_VARINT_BYTES, body + tail);
    BodyLocal(d[n..], key % 8, tail);
    assert e[n..] == body + tail;
    assert (body + tail)[skip..skip + length] == d[n..][skip..skip + length];
    assert e[..n + skip + length] == ReadField(d).value.raw;
  }

  lemma {:induction false} FieldsReparse(d: Bytes)
    requires Fields(d).Some?
    ensures forall f :: f in Fields(d).value ==> Reparses(f)
    ensures Raws(Fields(d).value) == d
  {
    if d != [] {
      var f := ReadField(d).value;
      ReadFieldReparses(d);
      FieldsReparse(d[|f.raw|..]);
      assert Fields(d).value[1..] == Fields(d[|f.raw|..]).value;
    }
  }

  lemma {:induction false} FieldsOfRaws(fs: seq<Field>)
    requires forall f :: f in fs ==> Reparses(f)
    ensures Fields(Raws(fs)) == Some(fs)
  {
    if fs != [] {
      assert Reparses(fs[0]);
      FieldsOfRaws(fs[1..]);
      var d := Raws(fs);
      assert ReadField(d) == Some(fs[0]);
      assert d[|fs[0].raw|..] == Raws(fs[1..]);
      assert [fs[0]] + fs[1..] == fs;
    }
  }

  // ----- addresses -----

  datatype Ipv4 = Ipv4(a: byte, b: byte, c: byte, d: byte)

  function Dotted(ip: Ipv4): string {
    Decimal(ip.a as nat) + "." + Decimal(ip.b as nat) + "." + Decimal(ip.c as nat) + "." + Decimal(ip.d as nat)
  }

  predicate UsableSource(ip: Ipv4) {
    ip != Ipv4(0, 0, 0, 0) && !(224 <= ip.a < 240) && ip.a != 127
  }

  /** The parts of a split address; `rest` is its path, query and fragment. */
  datatype Url = Url(scheme: string, host: Option<string>, port: Option<nat>, credentials: bool, rest: string)

  /** URL splitting and joining; `split` also refuses text that is not UTF-8. */
  datatype Urls = Urls(split: Bytes -> Option<Url>, unsplit: (string, string, string) -> Bytes)

  const DIRECT_SCHEMES: set<string> := {"tcp", "tcp4", "tcp6", "quic", "quic4", "quic6"}

  predicate Unspecified(host: Option<string>) {
    host.None? || host.value in {"", "0.0.0.0", "::"}
  }

  datatype Rewritten = Invalid | Dropped | Kept(value: Bytes)

  function Authority(ip: Ipv4, port: nat): string {
    Dotted(ip) + ":" + Decimal(port)
  }

  function RewriteAddress(urls: Urls, value: Bytes, source: Option<Ipv4>): (r: Rewritten)
    ensures r.Kept? ==> |r.value| <= MAX_ADDRESS_BYTES
  {
    if !(1 <= |value| <= MAX_ADDRESS_BYTES) then Invalid
    else match urls.split(value)
      case None => Invalid
      case Some(u) =>
        if u.scheme !in DIRECT_SCHEMES then Kept(value)
        else if u.port.None? || u.credentials then Invalid
        else if !Unspecified(u.host) || source.None? then Kept(value)
        else if u.scheme[|u.scheme| - 1] == '6' then Dropped
        else
          var rewritten := urls.unsplit(u.scheme, Authority(source.value, u.port.value), u.rest);
          if |rewritten| > MAX_ADDRESS_BYTES then Invalid else Kept(rewritten)
  }

  /** Joining a split direct address with its own port and an IPv4 host, and splitting it
      again, finds that host and port, and everything else as it was. */
  ghost predicate Lawful(urls: Urls) {
    forall v: Bytes, ip: Ipv4, port: nat ::
      urls.split(v).Some? && urls.split(v).value.scheme in DIRECT_SCHEMES && urls.split(v).value.port == Some(port) ==>
        Rejoins(urls, urls.split(v).value, ip, port)
  }

  ghost predicate Rejoins(urls: Urls, u: Url, ip: Ipv4, port: nat) {
    var w := urls.unsplit(u.scheme, Authority(ip, port), u.rest);
    w != [] && urls.split(w) == Some(Url(u.scheme, Some(Dotted(ip)), Some(port), false, u.rest))
  }

  lemma DottedZero(ip: Ipv4)
    requires Dotted(ip) == "0.0.0.0"
    ensures ip == Ipv4(0, 0, 0, 0)
  {
    var a, b, c, d := Decimal(ip.a as nat), Decimal(ip.b as nat), Decimal(ip.c as nat), Decimal(ip.d as nat);
    var s := Dotted(ip);
    assert |s| == |a| + |b| + |c| + |d| + 3;
    assert |a| == 1 && |b| == 1 && |c| == 1 && |d| == 1;
    assert s[0] == a[0] && s[2] == b[0] && s[4] == c[0] && s[6] == d[0];
    assert Decimal(0) == "0" == a == b == c == d;
    DecimalInjective(ip.a as nat, 0);
    DecimalInjective(ip.b as nat, 0);
    DecimalInjective(ip.c as nat, 0);
    DecimalInjective(ip.d as nat, 0);
  }

  lemma DottedSpecified(ip: Ipv4)
    requires ip != Ipv4(0, 0, 0, 0)
    ensures !Unspecified(Some(Dotted(ip)))
  {
    assert |Dotted(ip)| >= 7;
    if Dotted(ip) == "0.0.0.0" {
      DottedZero(ip);
    }
  }

  /** A rewritten address is left alone by a second rewrite. */
  lemma RewriteStable(urls: Urls, value: Bytes, source: Option<Ipv4>)
    requires Lawful(urls) && (source.Some? ==> UsableSource(source.value))
    requires RewriteAddress(urls, value, source).Kept?
    ensures var w := RewriteAddress(urls, value, source).value;
            RewriteAddress(urls, w, source) == Kept(w)
  {
    if source.Some? {
      DottedSpecified(source.value);
      var u := urls.split(value).value;
      if u.scheme in DIRECT_SCHEMES && u.port.Some? {
        assert Rejoins(urls, u, source.value, u.port.value);
      }
    }
  }

  // ----- the whole announcement -----

  predicate IsKind(f: Field, number: nat, wire: nat) {
    f.number == number && f.wire == wire
  }

  function Count(fs: seq<Field>, number: nat, wire: nat): (n: nat)
    ensures n <= |fs|
  {
    if fs == [] then 0 else (if IsKind(fs[0], number, wire) then 1 else 0) + Count(fs[1..], number, wire)
  }

  function AddressField(value: Bytes): Field {
    Field(2, 2, value, Encode(ADDRESS_KEY) + Encode(|value|) + value)
  }

  /** What one field becomes: itself, a rewritten address, or nothing. */
  function RewriteField(urls: Urls, f: Field, source: Option<Ipv4>): Option<seq<Field>> {
    if !IsKind(f, 2, 2) then Some([f])
    else match RewriteAddress(urls, f.value, source)
      case Invalid => None
      case Dropped => Some([])
      case Kept(w) => Some([AddressField(w)])
  }

  function RewriteFields(urls: Urls, fs: seq<Field>, source: Option<Ipv4>): Option<seq<Field>> {
    if fs == [] then Some([])
    else
      var first, rest := RewriteField(urls, fs[0], source), RewriteFields(urls, fs[1..], source);
      if first.Some? && rest.Some? then Some(first.value + rest.value) else None
  }

  predicate WellFormed(fs: seq<Field>) {
    && (forall f :: f in fs && IsKind(f, 1, 2) ==> |f.value| == DEVICE_ID_BYTES)
    && Count(fs, 1, 2) == 1
    && 1 <= Count(fs, 2, 2) <= MAX_ADDRESSES
    && Count(fs, 3, 0) <= 1
  }

  /** The sender's address as the proxy receives it. */
  datatype Source = Absent | Malformed | Sender(ip: Ipv4)

  predicate GoodSource(s: Source) {
    s.Absent? || (s.Sender? && UsableSource(s.ip))
  }

  function SourceIp(s: Source): Option<Ipv4> {
    if s.Sender? then Some(s.ip) else None
  }

  function Transform(urls: Urls, packet: Bytes, source: Source): Option<Bytes> {
    if !(5 <= |packet| <= MAX_PACKET_BYTES) || packet[..4] != MAGIC || !GoodSource(source) then None
    else match Fields(packet[4..])
      case None => None
      case Some(fs) =>
        match RewriteFields(urls, fs, SourceIp(source))
        case None => None
        case Some(gs) =>
          if WellFormed(fs) && Count(gs, 2, 2) > 0 then Some(MAGIC + Raws(gs)) else None
  }

  lemma AddressFieldReparses(value: Bytes)
    requires |value| < LIMIT
    ensures Reparses(AddressField(value))
  {
    var f := AddressField(value);
    forall tail: Bytes
      ensures ReadField(f.raw + tail) == Some(f)
    {
      var k, n := Encode(ADDRESS_KEY), Encode(|value|);
      var d := f.raw + tail;
      ReadEncode(ADDRESS_KEY, n + value + tail);
      assert d == k + (n + value + tail);
      ReadEncode(|value|, value + tail);
      assert d[|k|..] == n + (value + tail);
      assert d[|k|..][|n|..|n| + |value|] == value;
      assert d[..|f.raw|] == f.raw;
    }
  }

  lemma {:induction false} RewriteFieldsReparse(urls: Urls, fs: seq<Field>, source: Option<Ipv4>)
    requires forall f :: f in fs ==> Reparses(f)
    requires RewriteFields(urls, fs, source).Some?
    ensures forall g :: g in RewriteFields(urls, fs, source).value ==> Reparses(g)
  {
    if fs != [] {
      RewriteFieldsReparse(urls, fs[1..], source);
      assert Reparses(fs[0]);
      if IsKind(fs[0], 2, 2) && RewriteAddress(urls, fs[0].value, source).Kept? {
        AddressFieldReparses(RewriteAddress(urls, fs[0].value, source).value);
      }
    }
  }

  /** Accepted output parses to the input's fields, in order, each mapped by
      `RewriteField`: every field except an address is the same field with the same
      bytes, and an address is rewritten or dropped. */
  lemma OutputParses(urls: Urls, packet: Bytes, source: Source)
    requires Transform(urls, packet, source).Some?
    ensures var out := Transform(urls, packet, source).value;
            && out[..4] == MAGIC
            && Fields(packet[4..]).Some?
            && Fields(out[4..]) == RewriteFields(urls, Fields(packet[4..]).value, SourceIp(source))
  {
    var fs := Fields(packet[4..]).value;
    FieldsReparse(packet[4..]);
    var gs := RewriteFields(urls, fs, SourceIp(source)).value;
    RewriteFieldsReparse(urls, fs, SourceIp(source));
    FieldsOfRaws(gs);
    assert (MAGIC + Raws(gs))[4..] == Raws(gs);
  }

  lemma {:induction false} CountConcat(fs: seq<Field>, gs: seq<Field>, number: nat, wire: nat)
    ensures Count(fs + gs, number, wire) == Count(fs, number, wire) + Count(gs, number, wire)
  {
    if fs == [] {
      assert fs + gs == gs;
    } else {
      CountConcat(fs[1..], gs, number, wire);
      assert (fs + gs)[1..] == fs[1..] + gs;
    }
  }

  /** Rewriting touches no other kind of field and never adds one. */
  lemma {:induction false} RewriteCounts(urls: Urls, fs: seq<Field>, source: Option<Ipv4>, number: nat, wire: nat)
    requires RewriteFields(urls, fs, source).Some?
    ensures var gs := RewriteFields(urls, fs, source).value;
            && Count(gs, number, wire) <= Count(fs, number, wire)
            && ((number, wire) != (2, 2) ==> Count(gs, number, wire) == Count(fs, number, wire))
            && (forall g :: g in gs && !IsKind(g, 2, 2) ==> g in fs)
  {
    if fs != [] {
      RewriteCounts(urls, fs[1..], source, number, wire);
      CountConcat(RewriteField(urls, fs[0], source).value, RewriteFields(urls, fs[1..], source).value, number, wire);
    }
  }

  function Join(a: Option<seq<Field>>, b: Option<seq<Field>>): Option<seq<Field>> {
    if a.Some? && b.Some? then Some(a.value + b.value) else None
  }

  lemma {:induction false} RewriteConcat(urls: Urls, fs: seq<Field>, gs: seq<Field>, source: Option<Ipv4>)
    ensures RewriteFields(urls, fs + gs, source) == Join(RewriteFields(urls, fs, source), RewriteFields(urls, gs, source))
  {
    hide RewriteField;
    var c := RewriteFields(urls, gs, source);
    if fs == [] {
      assert fs + gs == gs;
      assert c.Some? ==> [] + c.value == c.value;
    } else {
      RewriteConcat(urls, fs[1..], gs, source);
      assert (fs + gs)[1..] == fs[1..] + gs && (fs + gs)[0] == fs[0];
      var a, b := RewriteField(urls, fs[0], source), RewriteFields(urls, fs[1..], source);
      assert a.Some? && b.Some? && c.Some? ==> a.value + (b.value + c.value) == (a.value + b.value) + c.value;
    }
  }

  lemma {:induction false} RewriteFieldsStable(urls: Urls, fs: seq<Field>, source: Option<Ipv4>)
    requires Lawful(urls) && (source.Some? ==> UsableSource(source.value))
    requires RewriteFields(urls, fs, source).Some?
    ensures var gs := RewriteFields(urls, fs, source).value;
            RewriteFields(urls, gs, source) == Some(gs)
  {
    if fs != [] {
      RewriteFieldsStable(urls, fs[1..], source);
      var first, rest := RewriteField(urls, fs[0], source).value, RewriteFields(urls, fs[1..], source).value;
      if IsKind(fs[0], 2, 2) && RewriteAddress(urls, fs[0].value, source).Kept? {
        RewriteStable(urls, fs[0].value, source);
      }
      assert first != [] ==> first == [first[0]] && RewriteField(urls, first[0], source) == Some(first);
      assert first != [] ==> first[1..] == [] && first + [] == first;
      RewriteConcat(urls, first, rest, source);
    }
  }

  /** Transforming again with the same source changes nothing, exactly as long as the
      output still fits one packet. */
  lemma TransformIdempotent(urls: Urls, packet: Bytes, source: Source)
    requires Lawful(urls)
    requires Transform(urls, packet, source).Some?
    ensures var out := Transform(urls, packet, source).value;
            Transform(urls, out, source) == if |out| <= MAX_PACKET_BYTES then Some(out) else None
  {
    OutputParses(urls, packet, source);
    var out, src := Transform(urls, packet, source).value, SourceIp(source);
    var fs := Fields(packet[4..]).value;
    var gs := RewriteFields(urls, fs, src).value;
    RewriteFieldsStable(urls, fs, src);
    RewriteCounts(urls, fs, src, 1, 2);
    RewriteCounts(urls, fs, src, 2, 2);
    RewriteCounts(urls, fs, src, 3, 0);
    assert gs != [];
    assert |Raws(gs)| >= 1 by {
      FieldsReparse(packet[4..]);
      RewriteFieldsReparse(urls, fs, src);
      assert Reparses(gs[0]);
    }
  }

  // ----- the rewriting loop -----

  /** What follows a key: where the payload starts and where the field ends. */
  method ReadBody(packet: Bytes, start: nat, wire: nat) returns (r: Option<(nat, nat)>)
    requires start <= |packet|
    ensures match Body(packet[start..], wire)
            case None => r == None
            case Some((skip, length)) => r == Some((start + skip, start + skip + length))
  {
    hide Read;
    if wire == 1 || wire == 5 {
      var end := start + if wire == 1 then 8 else 4;
      return if end > |packet| then None else Some((end, end));
    }
    if wire != 0 && wire != 2 {
      return None;
    }
    var value := ReadVarint(packet, start);
    if value.None? {
      return None;
    }
    var (v, next) := value.value;
    if wire == 0 {
      return Some((next, next));
    }
    r := if next + v > |packet| then None else Some((next, next + v));
  }

  method ReadOne(packet: Bytes, start: nat) returns (r: Option<Field>)
    requires start <= |packet|
    ensures r == ReadField(packet[start..])
  {
    hide Read, Body;
    ghost var d := packet[start..];
    var key := ReadVarint(packet, start);
    if key.None? {
      return None;
    }
    var (k, body) := key.value;
    assert d[body - start..] == packet[body..];
    if k / 8 == 0 {
      return None;
    }
    var rest := ReadBody(packet, body, k % 8);
    if rest.None? {
      return None;
    }
    var (payload, position) := rest.value;
    assert packet[start..position] == d[..position - start];
    assert packet[payload..position] == packet[body..][payload - body..position - body];
    r := Some(Field(k / 8, k % 8, packet[payload..position], packet[start..position]));
  }

  /** How the part already consumed and the part still ahead make up the whole. */
  ghost predicate Progress(packet: Bytes, seen: seq<Field>, position: nat)
    requires 4 <= position <= |packet|
  {
    Fields(packet[4..]) == Join(Some(seen), Fields(packet[position..]))
  }

  lemma ProgressStep(packet: Bytes, seen: seq<Field>, position: nat)
    requires 4 <= position < |packet| && Progress(packet, seen, position)
    ensures match ReadField(packet[position..])
            case None => Fields(packet[4..]) == None
            case Some(f) => position + |f.raw| <= |packet| && Progress(packet, seen + [f], position + |f.raw|)
  {
    hide ReadField;
    var d := packet[position..];
    if ReadField(d).Some? {
      var f := ReadField(d).value;
      assert d[|f.raw|..] == packet[position + |f.raw|..];
      var rest := Fields(packet[position + |f.raw|..]);
      assert rest.Some? ==> seen + ([f] + rest.value) == (seen + [f]) + rest.value;
    }
  }

  lemma {:induction false} RawsAppend(fs: seq<Field>, gs: seq<Field>)
    ensures Raws(fs + gs) == Raws(fs) + Raws(gs)
  {
    if fs == [] {
      assert fs + gs == gs;
    } else {
      RawsAppend(fs[1..], gs);
      assert (fs + gs)[1..] == fs[1..] + gs && (fs + gs)[0] == fs[0];
      assert fs[0].raw + (Raws(fs[1..]) + Raws(gs)) == (fs[0].raw + Raws(fs[1..])) + Raws(gs);
    }
  }

  /** A refusal while looking at `f` is a refusal of the whole packet. */
  lemma RefusedEarly(urls: Urls, packet: Bytes, source: Source, seen: seq<Field>, f: Field, position: nat)
    requires 4 <= position <= |packet| && Progress(packet, seen + [f], position)
    requires || (IsKind(f, 1, 2) && |f.value| != DEVICE_ID_BYTES)
             || Count(seen + [f], 2, 2) > MAX_ADDRESSES
             || RewriteField(urls, f, SourceIp(source)) == None
    ensures Transform(urls, packet, source) == None
  {
    if Fields(packet[position..]).Some? {
      var rest := Fields(packet[position..]).value;
      CountConcat(seen + [f], rest, 2, 2);
      RewriteConcat(urls, seen + [f], rest, SourceIp(source));
      RewriteConcat(urls, seen, [f], SourceIp(source));
      assert f in seen + [f] + rest;
    }
  }

  /** The bytes that one field contributes, and whether they are an address. */
  method RewriteOne(urls: Urls, f: Field, ip: Option<Ipv4>) returns (r: Option<(Bytes, nat)>)
    ensures r.Some? <==> RewriteField(urls, f, ip).Some?
    ensures r.Some? ==> var piece := RewriteField(urls, f, ip).value;
                        r.value.0 == Raws(piece) && r.value.1 == Count(piece, 2, 2)
  {
    hide RewriteAddress, Encode;
    if !IsKind(f, 2, 2) {
      assert Raws([f]) == f.raw + Raws([]);
      return Some((f.raw, 0));
    }
    var rewritten := RewriteAddress(urls, f.value, ip);
    match rewritten
    case Invalid => r := None;
    case Dropped => r := Some(([], 0));
    case Kept(value) =>
      var key := EncodeVarint(ADDRESS_KEY);
      var length := EncodeVarint(|value|);
      assert Raws([AddressField(value)]) == AddressField(value).raw + Raws([]);
      r := Some((key.value + length.value + value, 1));
  }

  /** Where the scan is, what it has written, and how many device ids, addresses, instance
      ids and written addresses it has counted. */
  datatype Scan = Scan(position: nat, output: Bytes, ids: nat, addresses: nat, instances: nat, emitted: nat)

  /** The scan after the fields `seen`. */
  ghost predicate Tally(urls: Urls, packet: Bytes, ip: Option<Ipv4>, seen: seq<Field>, s: Scan) {
    && 4 <= s.position <= |packet| && Progress(packet, seen, s.position)
    && RewriteFields(urls, seen, ip).Some?
    && s.output == MAGIC + Raws(RewriteFields(urls, seen, ip).value)
    && s.ids == Count(seen, 1, 2) && s.addresses == Count(seen, 2, 2) <= MAX_ADDRESSES
    && s.instances == Count(seen, 3, 0) && s.emitted == Count(RewriteFields(urls, seen, ip).value, 2, 2)
    && forall f :: f in seen && IsKind(f, 1, 2) ==> |f.value| == DEVICE_ID_BYTES
  }

  function Counted(s: Scan, f: Field, output: Bytes, emitted: nat): Scan {
    Scan(s.position + |f.raw|, s.output + output, s.ids + if IsKind(f, 1, 2) then 1 else 0,
         s.addresses + if IsKind(f, 2, 2) then 1 else 0, s.instances + if IsKind(f, 3, 0) then 1 else 0,
         s.emitted + emitted)
  }

  lemma TallyStep(urls: Urls, packet: Bytes, ip: Option<Ipv4>, seen: seq<Field>, s: Scan, f: Field)
    requires Tally(urls, packet, ip, seen, s) && RewriteField(urls, f, ip).Some?
    requires s.position + |f.raw| <= |packet| && Progress(packet, seen + [f], s.position + |f.raw|)
    requires IsKind(f, 1, 2) ==> |f.value| == DEVICE_ID_BYTES
    requires IsKind(f, 2, 2) ==> s.addresses < MAX_ADDRESSES
    ensures var piece := RewriteField(urls, f, ip).value;
            Tally(urls, packet, ip, seen + [f], Counted(s, f, Raws(piece), Count(piece, 2, 2)))
  {
    hide RewriteField, RewriteFields, Progress, Raws, Count;
    var gs, piece := RewriteFields(urls, seen, ip).value, RewriteField(urls, f, ip).value;
    CountOneMore(seen, f, 1, 2);
    CountOneMore(seen, f, 2, 2);
    CountOneMore(seen, f, 3, 0);
    RewriteOneMore(urls, seen, f, ip);
    RawsAppend(gs, piece);
    CountConcat(gs, piece, 2, 2);
    assert MAGIC + (Raws(gs) + Raws(piece)) == s.output + Raws(piece);
  }

  lemma CountOneMore(fs: seq<Field>, f: Field, number: nat, wire: nat)
    ensures Count(fs + [f], number, wire) == Count(fs, number, wire) + if IsKind(f, number, wire) then 1 else 0
  {
    CountConcat(fs, [f], number, wire);
    assert [f][1..] == [];
  }

  lemma RewriteOneMore(urls: Urls, fs: seq<Field>, f: Field, ip: Option<Ipv4>)
    requires RewriteFields(urls, fs, ip).Some? && RewriteField(urls, f, ip).Some?
    ensures RewriteFields(urls, fs + [f], ip)
            == Some(RewriteFields(urls, fs, ip).value + RewriteField(urls, f, ip).value)
  {
    hide RewriteField;
    RewriteConcat(urls, fs, [f], ip);
    var piece := RewriteField(urls, f, ip).value;
    assert [f][1..] == [] && piece + [] == piece;
    assert RewriteFields(urls, [f], ip) == Some(piece);
  }

  lemma TallyDecides(urls: Urls, packet: Bytes, source: Source, seen: seq<Field>, s: Scan)
    requires 5 <= |packet| <= MAX_PACKET_BYTES && packet[..4] == MAGIC && GoodSource(source)
    requires Tally(urls, packet, SourceIp(source), seen, s) && s.position == |packet|
    ensures Transform(urls, packet, source)
            == if s.ids != 1 || !(1 <= s.addresses <= MAX_ADDRESSES) || s.instances > 1 || s.emitted == 0
               then None else Some(s.output)
  {
    hide RewriteFields, Count, Raws, ReadField;
    assert seen + [] == seen && packet[|packet|..] == [];
  }

  lemma TallyStart(urls: Urls, packet: Bytes, ip: Option<Ipv4>)
    requires 4 <= |packet|
    ensures Tally(urls, packet, ip, [], Scan(4, MAGIC, 0, 0, 0, 0))
  {
    var fs := Fields(packet[4..]);
    assert fs.Some? ==> [] + fs.value == fs.value;
  }

  /** One turn of the loop; no result means that the whole packet is refused. */
  method ScanField(urls: Urls, packet: Bytes, source: Source, s: Scan, ghost seen: seq<Field>)
    returns (r: Option<Scan>, ghost more: seq<Field>)
    requires Tally(urls, packet, SourceIp(source), seen, s) && s.position < |packet|
    ensures r.None? ==> Transform(urls, packet, source) == None
    ensures r.Some? ==> Tally(urls, packet, SourceIp(source), more, r.value) && r.value.position > s.position
  {
    hide RewriteField, RewriteFields, ReadField, Fields, Count, Raws, Transform;
    var ip := SourceIp(source);
    more := seen;
    ProgressStep(packet, seen, s.position);
    var field := ReadOne(packet, s.position);
    if field.None? {
      NoFields(urls, packet, source);
      return None, more;
    }
    var f := field.value;
    more := seen + [f];
    var piece := RewriteOne(urls, f, ip);
    if piece.None? || (IsKind(f, 1, 2) && |f.value| != DEVICE_ID_BYTES)
       || (IsKind(f, 2, 2) && s.addresses + 1 > MAX_ADDRESSES) {
      CountOneMore(seen, f, 2, 2);
      RefusedEarly(urls, packet, source, seen, f, s.position + |f.raw|);
      return None, more;
    }
    TallyStep(urls, packet, ip, seen, s, f);
    r := Some(Counted(s, f, piece.value.0, piece.value.1));
  }

  lemma NoFields(urls: Urls, packet: Bytes, source: Source)
    requires 4 <= |packet| && Fields(packet[4..]) == None
    ensures Transform(urls, packet, source) == None
  {
  }

  method TransformAnnouncement(urls: Urls, packet: Bytes, source: Source) returns (r: Option<Bytes>)
    ensures r == Transform(urls, packet, source)
  {
    if !(5 <= |packet| <= MAX_PACKET_BYTES) || packet[..4] != MAGIC || !GoodSource(source) {
      return None;
    }
    hide Tally, Transform;
    var s := Scan(4, MAGIC, 0, 0, 0, 0);
    ghost var seen: seq<Field> := [];
    TallyStart(urls, packet, SourceIp(source));
    while s.position < |packet|
      invariant Tally(urls, packet, SourceIp(source), seen, s)
      decreases |packet| - s.position
    {
      var next, more := ScanField(urls, packet, source, s, seen);
      if next.None? {
        return None;
      }
      s, seen := next.value, more;
    }
    TallyEnds(urls, packet, SourceIp(source), seen, s);
    TallyDecides(urls, packet, source, seen, s);
    if s.ids != 1 || !(1 <= s.addresses <= MAX_ADDRESSES) || s.instances > 1 || s.emitted == 0 {
      return None;
    }
    r := Some(s.output);
  }

  lemma TallyEnds(urls: Urls, packet: Bytes, ip: Option<Ipv4>, seen: seq<Field>, s: Scan)
    requires Tally(urls, packet, ip, seen, s)
    ensures s.position <= |packet|
  {
  }
}
