/** What a transformed announcement says, address by address. */
module AnnouncementMeaning {
  import opened Announcement
  import opened ByteStrings
  import opened Decimals
  import opened Varint
  import opened Wrappers

  // ----- the fields of a packet -----

  /** The wire types: a varint, eight bytes, bytes behind their length, and four bytes. */
  predicate Wired(wire: nat, body: Bytes, value: Bytes) {
    match wire
    case 0 => value == [] && exists v: nat :: v < LIMIT && body == Encode(v)
    case 1 => value == [] && |body| == 8
    case 2 => |value| < LIMIT && body == Encode(|value|) + value
    case 5 => value == [] && |body| == 4
    case _ => false
  }

  lemma BodyOf(wire: nat, body: Bytes, value: Bytes, tail: Bytes)
    requires Wired(wire, body, value)
    ensures Body(body + tail, wire) == Some((|body| - |value|, |value|))
  {
    if wire == 0 {
      var v: nat :| v < LIMIT && body == Encode(v);
      ReadEncode(v, tail);
    } else if wire == 2 {
      ReadEncode(|value|, value + tail);
      assert body + tail == Encode(|value|) + (value + tail);
    }
  }

  /** A key and a body of its wire type are read as that field, whatever follows. */
  lemma FieldIsRead(number: nat, wire: nat, body: Bytes, value: Bytes, tail: Bytes)
    requires 1 <= number && wire < 8 && 8 * number + wire < LIMIT && Wired(wire, body, value)
    ensures var raw := Encode(8 * number + wire) + body;
            ReadField(raw + tail) == Some(Field(number, wire, value, raw))
  {
    hide Body, Read;
    var key := Encode(8 * number + wire);
    var d := key + body + tail;
    assert d == key + (body + tail);
    ReadEncode(8 * number + wire, body + tail);
    BodyOf(wire, body, value, tail);
    assert d[|key|..] == body + tail;
    assert (body + tail)[|body| - |value|..|body|] == value by {
      if wire == 2 {
        assert body == Encode(|value|) + value;
      }
    }
    assert d[..|key| + |body|] == key + body;
  }

  /** A body that is cut off, or that no wire type has. */
  ghost predicate Broken(wire: nat, rest: Bytes) {
    match wire
    case 0 => NoEnd(rest)
    case 1 => |rest| < 8
    case 2 => NoEnd(rest) || exists n: nat, have: Bytes :: n < LIMIT && |have| < n && rest == Encode(n) + have
    case 5 => |rest| < 4
    case _ => true
  }

  predicate NoEnd(rest: Bytes) {
    forall i :: 0 <= i < |rest| && i < 10 ==> rest[i] >= 128
  }

  lemma BrokenBody(wire: nat, rest: Bytes)
    requires Broken(wire, rest)
    ensures Body(rest, wire) == None
  {
    hide Read;
    ReadDigits(rest, MAX_VARINT_BYTES);
    if wire == 2 && !NoEnd(rest) {
      var n: nat, have: Bytes :| n < LIMIT && |have| < n && rest == Encode(n) + have;
      ReadEncode(n, have);
    }
  }

  /** Field number zero and broken bodies are refused. */
  lemma FieldIsRefused(number: nat, wire: nat, rest: Bytes)
    requires wire < 8 && 8 * number + wire < LIMIT && (number == 0 || Broken(wire, rest))
    ensures ReadField(Encode(8 * number + wire) + rest) == None
  {
    hide Read, Body, Broken;
    var key := Encode(8 * number + wire);
    ReadEncode(8 * number + wire, rest);
    assert (key + rest)[|key|..] == rest;
    if number != 0 {
      BrokenBody(wire, rest);
    }
  }

  // ----- what becomes of them -----

  /** A direct address that leaves its host open for the receiver to fill in. */
  predicate LeavesHostOpen(u: Url) {
    && u.scheme in {"tcp", "tcp4", "tcp6", "quic", "quic4", "quic6"}
    && (u.host.None? || u.host == Some("") || u.host == Some("0.0.0.0") || u.host == Some("::"))
  }

  predicate EndsInSix(scheme: string) {
    scheme in {"tcp6", "quic6"}
  }

  predicate IsAddress(f: Field) {
    f.number == 2 && f.wire == 2
  }

  /** What one field of a packet becomes on its way: other fields pass with their bytes;
      an address passes, too, unless it leaves its host open and the sender is known; then
      it is dropped, or names the sender's host and is otherwise the same. */
  predicate Becomes(urls: Urls, f: Field, sender: Option<Ipv4>, gs: seq<Field>) {
    if !IsAddress(f) then gs == [f]
    else
      && urls.split(f.value).Some?
      && var u := urls.split(f.value).value;
      if sender.None? || !LeavesHostOpen(u) then |gs| == 1 && IsAddress(gs[0]) && gs[0].value == f.value
      else if EndsInSix(u.scheme) then gs == []
      else
        && |gs| == 1 && IsAddress(gs[0])
        && urls.split(gs[0].value) == Some(Url(u.scheme, Some(Dotted(sender.value)), u.port, false, u.rest))
  }

  function Flat(parts: seq<seq<Field>>): seq<Field> {
    if parts == [] then [] else parts[0] + Flat(parts[1..])
  }

  /** The fields `gs` are what the fields `fs` become, one after the other. */
  ghost predicate Passes(urls: Urls, fs: seq<Field>, sender: Option<Ipv4>, gs: seq<Field>) {
    exists parts: seq<seq<Field>> :: Aligned(urls, fs, sender, gs, parts)
  }

  ghost predicate Aligned(urls: Urls, fs: seq<Field>, sender: Option<Ipv4>, gs: seq<Field>, parts: seq<seq<Field>>) {
    |parts| == |fs| && Flat(parts) == gs && forall i :: 0 <= i < |fs| ==> Becomes(urls, fs[i], sender, parts[i])
  }

  lemma OneBecomes(urls: Urls, f: Field, sender: Option<Ipv4>)
    requires Lawful(urls) && RewriteField(urls, f, sender).Some?
    ensures Becomes(urls, f, sender, RewriteField(urls, f, sender).value)
  {
    if IsAddress(f) {
      var u := urls.split(f.value).value;
      if sender.Some? && LeavesHostOpen(u) {
        SixOrNot(u.scheme);
        assert u.port.Some? && Rejoins(urls, u, sender.value, u.port.value);
      }
    }
  }

  lemma SixOrNot(scheme: string)
    requires scheme in {"tcp", "tcp4", "tcp6", "quic", "quic4", "quic6"}
    ensures EndsInSix(scheme) <==> scheme[|scheme| - 1] == '6'
  {
  }

  lemma {:induction false} AllBecome(urls: Urls, fs: seq<Field>, sender: Option<Ipv4>) returns (parts: seq<seq<Field>>)
    requires Lawful(urls) && RewriteFields(urls, fs, sender).Some?
    ensures Aligned(urls, fs, sender, RewriteFields(urls, fs, sender).value, parts)
  {
    hide Becomes, RewriteField, Lawful;
    if fs == [] {
      parts := [];
    } else {
      OneBecomes(urls, fs[0], sender);
      var rest := AllBecome(urls, fs[1..], sender);
      parts := [RewriteField(urls, fs[0], sender).value] + rest;
      assert parts[1..] == rest;
    }
  }

  /** An accepted announcement passes field by field. */
  lemma AnnouncementPasses(urls: Urls, packet: Bytes, source: Source)
    requires Lawful(urls) && Transform(urls, packet, source).Some?
    ensures var out := Transform(urls, packet, source).value;
            && Fields(packet[4..]).Some? && Fields(out[4..]).Some?
            && Passes(urls, Fields(packet[4..]).value, SourceIp(source), Fields(out[4..]).value)
  {
    hide RewriteFields, Lawful, Aligned;
    OutputParses(urls, packet, source);
    var parts := AllBecome(urls, Fields(packet[4..]).value, SourceIp(source));
  }

  /** With a known sender no address of the output leaves its host open. */
  lemma NoHostLeftOpen(urls: Urls, packet: Bytes, ip: Ipv4, g: Field)
    requires Lawful(urls) && Transform(urls, packet, Sender(ip)).Some?
    requires Fields(Transform(urls, packet, Sender(ip)).value[4..]).Some?
    requires g in Fields(Transform(urls, packet, Sender(ip)).value[4..]).value && IsAddress(g)
    ensures urls.split(g.value).Some? && !LeavesHostOpen(urls.split(g.value).value)
  {
    hide Lawful, Becomes, Transform;
    SenderIsSpecified(urls, packet, ip);
    AnnouncementPasses(urls, packet, Sender(ip));
    var fs, gs := Fields(packet[4..]).value, Fields(Transform(urls, packet, Sender(ip)).value[4..]).value;
    var parts :| Aligned(urls, fs, Some(ip), gs, parts);
    var i, k := FlatMember(parts, g);
    BecomesClosed(urls, fs[i], ip, parts[i], k);
  }

  lemma {:induction false} FlatMember(parts: seq<seq<Field>>, g: Field) returns (i: nat, k: nat)
    requires g in Flat(parts)
    ensures i < |parts| && k < |parts[i]| && parts[i][k] == g
  {
    if g in parts[0] {
      i := 0;
      k :| 0 <= k < |parts[0]| && parts[0][k] == g;
    } else {
      i, k := FlatMember(parts[1..], g);
      i := i + 1;
    }
  }

  lemma SenderIsSpecified(urls: Urls, packet: Bytes, ip: Ipv4)
    requires Transform(urls, packet, Sender(ip)).Some?
    ensures UsableSource(ip) && |packet| >= 5 && |Transform(urls, packet, Sender(ip)).value| >= 4
  {
    hide Fields, RewriteFields;
  }

  lemma BecomesClosed(urls: Urls, f: Field, ip: Ipv4, gs: seq<Field>, k: nat)
    requires Becomes(urls, f, Some(ip), gs) && k < |gs| && IsAddress(gs[k]) && UsableSource(ip)
    ensures urls.split(gs[k].value).Some? && !LeavesHostOpen(urls.split(gs[k].value).value)
  {
    DottedSpecified(ip);
  }

  // ----- which announcements are accepted -----

  /** What is required of one address. */
  predicate AddressAccepted(urls: Urls, v: Bytes, sender: Option<Ipv4>) {
    && 1 <= |v| <= 512 && urls.split(v).Some?
    && var u := urls.split(v).value;
    u.scheme in {"tcp", "tcp4", "tcp6", "quic", "quic4", "quic6"} ==>
      && u.port.Some? && !u.credentials
      && (sender.Some? && LeavesHostOpen(u) && !EndsInSix(u.scheme) ==>
            |urls.unsplit(u.scheme, Dotted(sender.value) + ":" + Decimal(u.port.value), u.rest)| <= 512)
  }

  predicate Known(source: Source) {
    || source.Absent?
    || (source.Sender? && source.ip != Ipv4(0, 0, 0, 0) && source.ip.a != 127 && !(224 <= source.ip.a <= 239))
  }

  function Places(fs: seq<Field>, number: nat, wire: nat): set<int> {
    set i | 0 <= i < |fs| && fs[i].number == number && fs[i].wire == wire
  }

  lemma {:induction false} CountPlaces(fs: seq<Field>, number: nat, wire: nat)
    ensures Count(fs, number, wire) == |Places(fs, number, wire)|
  {
    if fs != [] {
      var init, n := fs[..|fs| - 1], |fs| - 1;
      CountPlaces(init, number, wire);
      CountConcat(init, [fs[n]], number, wire);
      assert fs == init + [fs[n]];
      var own := if fs[n].number == number && fs[n].wire == wire then {n} else {};
      PlacesLast(fs, number, wire);
      hide Places, Count;
      assert |Places(init, number, wire) + own| == |Places(init, number, wire)| + |own|;
    }
  }

  lemma PlacesLast(fs: seq<Field>, number: nat, wire: nat)
    requires fs != []
    ensures var init, n := fs[..|fs| - 1], |fs| - 1;
            var own := if fs[n].number == number && fs[n].wire == wire then {n} else {};
            && Places(fs, number, wire) == Places(init, number, wire) + own
            && n !in Places(init, number, wire) && Count([fs[n]], number, wire) == |own|
  {
  }

  /** The address is not one that is dropped. */
  predicate Stays(urls: Urls, v: Bytes, sender: Option<Ipv4>) {
    urls.split(v).Some? && (sender.Some? && LeavesHostOpen(urls.split(v).value) ==> !EndsInSix(urls.split(v).value.scheme))
  }

  /** The fields of an acceptable announcement: one device id of 32 bytes, one to 32
      addresses that are each acceptable and not all dropped, and at most one instance. */
  ghost predicate FieldsAccepted(urls: Urls, fs: seq<Field>, sender: Option<Ipv4>) {
    && |Places(fs, 1, 2)| == 1 && (forall f :: f in fs && f.number == 1 && f.wire == 2 ==> |f.value| == 32)
    && 1 <= |Places(fs, 2, 2)| <= 32 && |Places(fs, 3, 0)| <= 1
    && (forall f :: f in fs && IsAddress(f) ==> AddressAccepted(urls, f.value, sender))
    && exists f :: f in fs && IsAddress(f) && Stays(urls, f.value, sender)
  }

  /** Announcements are accepted exactly by size, magic, sender and fields. */
  lemma AcceptedIff(urls: Urls, packet: Bytes, source: Source)
    ensures Transform(urls, packet, source).Some? <==>
            && 5 <= |packet| <= 8192 && packet[..4] == [0x2e, 0xa7, 0xd9, 0x0b] && Known(source)
            && Fields(packet[4..]).Some? && FieldsAccepted(urls, Fields(packet[4..]).value, SourceIp(source))
  {
    hide RewriteFields, AddressAccepted, Stays, Places, Count;
    if 5 <= |packet| && Fields(packet[4..]).Some? {
      var fs := Fields(packet[4..]).value;
      CountPlaces(fs, 1, 2);
      CountPlaces(fs, 2, 2);
      CountPlaces(fs, 3, 0);
      RewrittenIff(urls, fs, SourceIp(source));
      forall f ensures IsKind(f, 1, 2) <==> f.number == 1 && f.wire == 2 {
      }
    }
  }

  lemma OneAccepted(urls: Urls, f: Field, sender: Option<Ipv4>)
    ensures RewriteField(urls, f, sender).Some? <==> (IsAddress(f) ==> AddressAccepted(urls, f.value, sender))
    ensures RewriteField(urls, f, sender).Some? ==>
              Count(RewriteField(urls, f, sender).value, 2, 2)
              == if IsAddress(f) && Stays(urls, f.value, sender) then 1 else 0
  {
    if IsAddress(f) && urls.split(f.value).Some? && urls.split(f.value).value.scheme in DIRECT_SCHEMES {
      SixOrNot(urls.split(f.value).value.scheme);
    }
  }

  lemma {:induction false} RewrittenIff(urls: Urls, fs: seq<Field>, sender: Option<Ipv4>)
    ensures RewriteFields(urls, fs, sender).Some? <==>
            forall f :: f in fs && IsAddress(f) ==> AddressAccepted(urls, f.value, sender)
    ensures RewriteFields(urls, fs, sender).Some? ==>
              (Count(RewriteFields(urls, fs, sender).value, 2, 2) > 0
               <==> exists f :: f in fs && IsAddress(f) && Stays(urls, f.value, sender))
  {
    hide RewriteField, AddressAccepted, Stays;
    if fs != [] {
      RewrittenIff(urls, fs[1..], sender);
      OneAccepted(urls, fs[0], sender);
      assert fs == [fs[0]] + fs[1..];
      if RewriteFields(urls, fs, sender).Some? {
        CountConcat(RewriteField(urls, fs[0], sender).value, RewriteFields(urls, fs[1..], sender).value, 2, 2);
      }
      if f :| f in fs && IsAddress(f) && Stays(urls, f.value, sender) {
        assert f == fs[0] || f in fs[1..];
      }
    }
  }
}
