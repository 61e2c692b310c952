/** ClientHello messages as they are put together: what is located in them is where it was put. */
module HelloEncoding {
  import opened StreamBytes
  import opened ClientHello

  datatype Extension = Extension(typ: nat, body: seq<Byte>)

  datatype Hello = Hello(
    version: seq<Byte>,
    random: seq<Byte>,
    sessionID: seq<Byte>,
    cipherSuites: seq<Byte>,
    compressionMethods: seq<Byte>,
    extensions: seq<Extension>)

  /** The parts have the sizes that the format allows. */
  predicate Encodable(h: Hello) {
    && |h.version| == 2 && |h.random| == 32 && |h.sessionID| < 0x100 && |h.cipherSuites| < 0x1_0000
    && |h.compressionMethods| < 0x100 && AllEncodable(h.extensions) && |EncodeAll(h.extensions)| < 0x1_0000
  }

  predicate AllEncodable(exts: seq<Extension>) {
    forall k | 0 <= k < |exts| :: EncodableExtension(exts[k])
  }

  predicate EncodableExtension(x: Extension) {
    x.typ < 0x1_0000 && |x.body| < 0x1_0000
  }

  function Two(n: nat): (s: seq<Byte>)
    requires n < 0x1_0000
    ensures |s| == 2 && Uint16(s, 0) == n
  {
    [(n / 256) as Byte, (n % 256) as Byte]
  }

  function EncodeExtension(x: Extension): seq<Byte>
    requires EncodableExtension(x)
  {
    Two(x.typ) + Two(|x.body|) + x.body
  }

  function EncodeAll(exts: seq<Extension>): seq<Byte>
    requires AllEncodable(exts)
  {
    if exts == [] then [] else EncodeAll(exts[..|exts| - 1]) + EncodeExtension(exts[|exts| - 1])
  }

  /** Where the extensions start. */
  function ExtensionsAt(h: Hello): nat {
    4 + 2 + 32 + 1 + |h.sessionID| + 2 + |h.cipherSuites| + 1 + |h.compressionMethods| + 2
  }

  /** The message: its type and length, and then its parts, each with its length in front if it varies. */
  function Encode(h: Hello): seq<Byte>
    requires Encodable(h)
  {
    UpToMethods(h) + Two(|EncodeAll(h.extensions)|) + EncodeAll(h.extensions)
  }

  function UpToMethods(h: Hello): seq<Byte>
    requires Encodable(h)
  {
    UpToSuites(h) + [|h.compressionMethods| as Byte] + h.compressionMethods
  }

  function UpToSuites(h: Hello): seq<Byte>
    requires Encodable(h)
  {
    UpToSession(h) + Two(|h.cipherSuites|) + h.cipherSuites
  }

  function UpToSession(h: Hello): seq<Byte>
    requires Encodable(h)
  {
    Head(h) + [|h.sessionID| as Byte] + h.sessionID
  }

  function Head(h: Hello): seq<Byte>
    requires Encodable(h)
  {
    var n := ExtensionsAt(h) - 4 + |EncodeAll(h.extensions)|;
    [1, (n / 0x1_0000) as Byte] + Two(n % 0x1_0000) + h.version + h.random
  }

  /** Where extension k starts among them. */
  function Offset(exts: seq<Extension>, k: nat): nat
    requires k <= |exts| && AllEncodable(exts)
  {
    |EncodeAll(exts[..k])|
  }

  lemma Uint16At(data: seq<Byte>, pos: nat, n: nat)
    requires n < 0x1_0000 && pos + 2 <= |data| && data[pos..pos + 2] == Two(n)
    ensures Uint16(data, pos) == n
  {
    assert data[pos] == data[pos..pos + 2][0] && data[pos + 1] == data[pos..pos + 2][1];
  }

  lemma SliceAt(data: seq<Byte>, start: nat, lo: nat, hi: nat)
    requires start <= |data| && lo <= hi <= |data| - start
    ensures data[start..][lo..hi] == data[start + lo..start + hi]
  {
  }

  // Where the parts of the message are.
  lemma PartsAt(h: Hello)
    requires Encodable(h)
    ensures Head(h) <= UpToSession(h) <= UpToSuites(h) <= UpToMethods(h) <= Encode(h)
    ensures |Head(h)| == 38 && |UpToSession(h)| == 39 + |h.sessionID|
    ensures |UpToSuites(h)| == |UpToSession(h)| + 2 + |h.cipherSuites|
    ensures |UpToMethods(h)| == |UpToSuites(h)| + 1 + |h.compressionMethods| == ExtensionsAt(h) - 2
    ensures |Encode(h)| == ExtensionsAt(h) + |EncodeAll(h.extensions)|
  {
    hide EncodeAll;
  }

  lemma Lengths(h: Hello)
    requires Encodable(h)
    ensures var data := Encode(h);
            var ciphers, compression := 39 + |h.sessionID|, 41 + |h.sessionID| + |h.cipherSuites|;
            && |data| == ExtensionsAt(h) + |EncodeAll(h.extensions)|
            && data[38] as int == |h.sessionID| && Uint16(data, ciphers) == |h.cipherSuites|
            && data[compression] as int == |h.compressionMethods|
            && Uint16(data, ExtensionsAt(h) - 2) == |EncodeAll(h.extensions)|
            && data[ExtensionsAt(h)..] == EncodeAll(h.extensions)
  {
    PartsAt(h);
    hide EncodeAll, Head;
    var data, all := Encode(h), EncodeAll(h.extensions);
    assert Cut(Head(h), [|h.sessionID| as Byte], h.sessionID, data);
    assert Cut(UpToSession(h), Two(|h.cipherSuites|), h.cipherSuites, data);
    assert Cut(UpToSuites(h), [|h.compressionMethods| as Byte], h.compressionMethods, data);
    assert Cut(UpToMethods(h), Two(|all|), all, data);
    hide Encode, UpToSession, UpToSuites, UpToMethods;
    CutByte(Head(h), |h.sessionID|, h.sessionID, data);
    CutTwo(UpToSession(h), |h.cipherSuites|, h.cipherSuites, data);
    CutByte(UpToSuites(h), |h.compressionMethods|, h.compressionMethods, data);
    CutTwo(UpToMethods(h), |all|, all, data);
  }

  // The sequence goes on after a with b and c.
  predicate Cut(a: seq<Byte>, b: seq<Byte>, c: seq<Byte>, data: seq<Byte>) {
    a + b + c <= data
  }

  lemma CutByte(a: seq<Byte>, n: nat, c: seq<Byte>, data: seq<Byte>)
    requires n < 0x100 && Cut(a, [n as Byte], c, data)
    ensures |a| < |data| && data[|a|] as int == n
  {
    assert (a + [n as Byte] + c)[|a|] == n as Byte;
  }

  lemma CutTwo(a: seq<Byte>, n: nat, c: seq<Byte>, data: seq<Byte>)
    requires n < 0x1_0000 && Cut(a, Two(n), c, data)
    ensures |a| + 2 + |c| <= |data| && Uint16(data, |a|) == n && data[|a| + 2..|a| + 2 + |c|] == c
  {
    var t := a + Two(n) + c;
    assert t[|a|] == Two(n)[0] && t[|a| + 1] == Two(n)[1] && t[|a| + 2..] == c;
    assert data[|a| + 2..|a| + 2 + |c|] == t[|a| + 2..];
  }

  lemma HeaderFits(h: Hello)
    requires Encodable(h)
    ensures var data := Encode(h);
            data[0] == 1 && |data| == 4 + data[1] as int * 65536 + Uint16(data, 2)
  {
    PartsAt(h);
    hide Encode, UpToSession, UpToSuites, UpToMethods, EncodeAll;
    var n := ExtensionsAt(h) - 4 + |EncodeAll(h.extensions)|;
    var t := [1, (n / 0x1_0000) as Byte] + Two(n % 0x1_0000);
    assert Head(h)[..4] == t && Encode(h)[..4] == Head(h)[..4];
    assert Encode(h)[0] == t[0] && Encode(h)[1] == t[1] && Encode(h)[2] == t[2] && Encode(h)[3] == t[3];
    assert t[2..4] == Two(n % 0x1_0000);
    Uint16At(t, 2, n % 0x1_0000);
  }

  /** The extensions are found where they are, whatever is in front of them. */
  lemma ExtensionsFound(h: Hello)
    requires Encodable(h)
    ensures ExtensionsStart(Encode(h)) == Some(ExtensionsAt(h))
    ensures Locate(Encode(h)) == Walk(Encode(h), ExtensionsAt(h), |EncodeAll(h.extensions)|, 0, -1, 0, -1)
  {
    Lengths(h);
    HeaderFits(h);
    hide Encode, EncodeAll, Walk;
  }

  // The extensions from k on.
  lemma {:induction false} AllSplit(exts: seq<Extension>, k: nat)
    requires AllEncodable(exts) && k < |exts|
    ensures Offset(exts, k + 1) == Offset(exts, k) + 4 + |exts[k].body| <= |EncodeAll(exts)|
    ensures EncodeAll(exts)[Offset(exts, k)..Offset(exts, k + 1)] == EncodeExtension(exts[k])
  {
    hide Two;
    var n := |exts| - 1;
    var before := exts[..n];
    if k == n {
      assert exts[..n + 1] == exts;
    } else {
      AllSplit(before, k);
      assert before[..k] == exts[..k] && before[..k + 1] == exts[..k + 1] && before[k] == exts[k];
      var all := EncodeAll(before);
      assert (all + EncodeExtension(exts[n]))[Offset(exts, k)..Offset(exts, k + 1)]
          == all[Offset(exts, k)..Offset(exts, k + 1)];
    }
  }

  /** The body of a server name extension with one host_name. */
  function ServerName(name: seq<Byte>): seq<Byte>
    requires |name| + 5 < 0x1_0000
  {
    Two(|name| + 3) + [0] + Two(|name|) + name
  }

  lemma ServerNameFound(data: seq<Byte>, start: nat, name: seq<Byte>, lastLen: int)
    requires |name| + 5 < 0x1_0000 && start + |name| + 5 <= |data|
             && data[start..start + |name| + 5] == ServerName(name)
    ensures NamesFit(data, start, |name| + 5) && HostName(data, start, |name| + 5, 2, lastLen) == (start + 5, |name|)
  {
    var body := data[start..start + |name| + 5];
    var list, len := Two(|name| + 3), Two(|name|);
    assert body == list + [0] + len + name;
    hide Two;
    assert body[0] == list[0] && body[1] == list[1] && body[2] == 0 && body[3] == len[0] && body[4] == len[1];
    assert forall i | 0 <= i < 5 :: data[start + i] == body[i];
  }

  lemma ExtensionAt(data: seq<Byte>, pos: nat, x: Extension)
    requires EncodableExtension(x) && pos + 4 + |x.body| <= |data|
             && data[pos..pos + 4 + |x.body|] == EncodeExtension(x)
    ensures Uint16(data, pos) == x.typ && Uint16(data, pos + 2) == |x.body|
    ensures data[pos + 4..pos + 4 + |x.body|] == x.body
  {
    var all := data[pos..pos + 4 + |x.body|];
    var typ, len := Two(x.typ), Two(|x.body|);
    assert all == typ + len + x.body;
    hide Two;
    assert all[0] == typ[0] && all[1] == typ[1] && all[2] == len[0] && all[3] == len[1] && all[4..] == x.body;
    assert forall i | 0 <= i < 4 :: data[pos + i] == all[i];
    assert data[pos + 4..pos + 4 + |x.body|] == all[4..];
  }

  /** At most one server name extension, at place sni and with one host_name, and at most one Encrypted Client Hello
      extension, at place ech. */
  ghost predicate Plain(exts: seq<Extension>, sni: Option<nat>, name: seq<Byte>, ech: Option<nat>) {
    && (sni.Some? ==> sni.value < |exts| && |name| + 5 < 0x1_0000 && exts[sni.value].body == ServerName(name))
    && (ech.Some? ==> ech.value < |exts|)
    && (forall k: nat | k < |exts| :: exts[k].typ == EXT_TYPE_SNI <==> sni == Some(k))
    && (forall k: nat | k < |exts| :: exts[k].typ == EXT_TYPE_ECH <==> ech == Some(k))
  }

  // What is located in front of place k.
  ghost function LocatedBefore(start: nat, exts: seq<Extension>, sni: Option<nat>, name: seq<Byte>, ech: Option<nat>,
                               k: nat): Located
    requires AllEncodable(exts) && Plain(exts, sni, name, ech) && k <= |exts|
  {
    Found(if sni.Some? && sni.value < k then start + Offset(exts, sni.value) + 4 + 5 else -1,
          if sni.Some? && sni.value < k then |name| else 0,
          if ech.Some? && ech.value < k then start + Offset(exts, ech.value) else -1)
  }

  lemma {:induction false} WalkFinds(data: seq<Byte>, start: nat, exts: seq<Extension>, sni: Option<nat>,
                                     name: seq<Byte>, ech: Option<nat>, k: nat)
    requires AllEncodable(exts) && Plain(exts, sni, name, ech) && k <= |exts|
    requires start <= |data| && data[start..] == EncodeAll(exts)
    requires k > 0 ==> sni.None? || ech.None? || k <= sni.value || k <= ech.value
    ensures var r := LocatedBefore(start, exts, sni, name, ech, k);
            Walk(data, start, |EncodeAll(exts)|, Offset(exts, k), r.sniPos, r.sniLen, r.echPos) ==
            LocatedBefore(start, exts, sni, name, ech, |exts|)
    decreases |exts| - k
  {
    hide EncodeAll, EncodeExtension, ServerName, NamesFit, HostName, Offset;
    if k == |exts| {
      assert Offset(exts, k) == |EncodeAll(exts)| by { WholeOffset(exts); }
    } else {
      var x, p := exts[k], Offset(exts, k);
      AllSplit(exts, k);
      SliceAt(data, start, p, p + 4 + |x.body|);
      ExtensionAt(data, start + p, x);
      if sni == Some(k) {
        assert |ServerName(name)| == |name| + 5 by { NameSize(name); }
        ServerNameFound(data, start + p + 4, name, 0);
      }
      if !(sni.Some? && ech.Some? && sni.value <= k && ech.value <= k) {
        WalkFinds(data, start, exts, sni, name, ech, k + 1);
      }
    }
  }

  lemma WholeOffset(exts: seq<Extension>)
    requires AllEncodable(exts)
    ensures Offset(exts, |exts|) == |EncodeAll(exts)| && Offset(exts, 0) == 0
  {
    assert exts[..|exts|] == exts;
  }

  lemma NameSize(name: seq<Byte>)
    requires |name| + 5 < 0x1_0000
    ensures |ServerName(name)| == |name| + 5
  {
  }

  /** For any session ID, cipher suites, compression methods and other extensions, the server name and the Encrypted
      Client Hello extension are located exactly where they were put, or reported as missing. */
  lemma LocatesWhatWasPut(h: Hello, sni: Option<nat>, name: seq<Byte>, ech: Option<nat>)
    requires Encodable(h) && Plain(h.extensions, sni, name, ech)
    ensures Locate(Encode(h)) ==
            Found(if sni.Some? then ExtensionsAt(h) + Offset(h.extensions, sni.value) + 9 else -1,
                  if sni.Some? then |name| else 0,
                  if ech.Some? then ExtensionsAt(h) + Offset(h.extensions, ech.value) else -1)
    ensures sni.Some? ==>
              var pos := ExtensionsAt(h) + Offset(h.extensions, sni.value) + 9;
              pos + |name| <= |Encode(h)| && Encode(h)[pos..pos + |name|] == name
  {
    hide Encode, EncodeAll, Walk, Offset, ServerName, EncodeExtension;
    ExtensionsFound(h);
    Lengths(h);
    WholeOffset(h.extensions);
    WalkFinds(Encode(h), ExtensionsAt(h), h.extensions, sni, name, ech, 0);
    if sni.Some? {
      NameAt(h, sni.value, name);
    }
  }

  lemma NameAt(h: Hello, k: nat, name: seq<Byte>)
    requires Encodable(h) && k < |h.extensions| && |name| + 5 < 0x1_0000 && h.extensions[k].body == ServerName(name)
    ensures var pos := ExtensionsAt(h) + Offset(h.extensions, k) + 9;
            pos + |name| <= |Encode(h)| && Encode(h)[pos..pos + |name|] == name
  {
    hide Encode, EncodeAll, Offset, EncodeExtension;
    var data, start, p, x := Encode(h), ExtensionsAt(h), Offset(h.extensions, k), h.extensions[k];
    Lengths(h);
    AllSplit(h.extensions, k);
    SliceAt(data, start, p, p + 4 + |x.body|);
    ExtensionAt(data, start + p, x);
    assert x.body[5..] == name;
    assert data[start + p + 9..start + p + 9 + |name|] == data[start + p + 4..start + p + 4 + |x.body|][5..];
  }
}
