/** Locating the server name and the Encrypted Client Hello extension in a ClientHello. */
module ClientHello {
  import opened StreamBytes

  const EXT_TYPE_SNI: int := 0
  const EXT_TYPE_ECH: int := 0xfe0d

  // Positions are -1 if the extension was not found.
  datatype Located = Found(sniPos: int, sniLen: int, echPos: int) | UnexpectedEOF | Malformed

  function Uint16(data: seq<Byte>, pos: nat): int
    requires pos + 2 <= |data|
  {
    data[pos] as int * 256 + data[pos + 1] as int
  }

  /** What the caller relies on: a located server name and extension lie within the data. */
  predicate InBounds(data: seq<Byte>, r: Located) {
    r.Found? ==>
      && 0 <= r.sniLen
      && r.sniLen <= |data|
      && (r.sniPos == -1 || (4 < r.sniPos && r.sniPos + r.sniLen <= |data|))
      && (r.echPos == -1 || (4 < r.echPos && r.echPos + 4 <= |data|))
  }

  /** What the positions mean: a host_name with its length in front, and the extension type. */
  predicate Accurate(data: seq<Byte>, r: Located)
    requires InBounds(data, r)
  {
    r.Found? ==>
      && (r.sniPos != -1 ==> data[r.sniPos - 3] == 0 && Uint16(data, r.sniPos - 2) == r.sniLen)
      && (r.echPos != -1 ==> Uint16(data, r.echPos) == EXT_TYPE_ECH)
  }

  /** Where the extensions start: after the version, the random, the session ID, the cipher
      suites, the compression methods and the length of the extensions. */
  function ExtensionsStart(data: seq<Byte>): (r: Option<nat>)
    ensures r.Some? ==> 2 <= r.value <= |data|
  {
    var sessionID := 38;
    if sessionID >= |data| then None
    else
      var ciphers := sessionID + 1 + data[sessionID] as int;
      if ciphers + 2 > |data| then None
      else
        var compression := ciphers + 2 + Uint16(data, ciphers);
        if compression >= |data| then None
        else
          var extensions := compression + 1 + data[compression] as int;
          if extensions + 2 > |data| then None else Some(extensions + 2)
  }

  /** The position of the first Encrypted Client Hello extension from offset p on. */
  function FirstECH(data: seq<Byte>, start: nat, len: nat, p: nat): int
    requires start + len <= |data|
    decreases len - p
  {
    if p + 4 > len then -1
    else if Uint16(data, start + p) == EXT_TYPE_ECH then start + p
    else FirstECH(data, start, len, p + 4 + Uint16(data, start + p + 2))
  }

  /** The position and length of the first host_name in a server name extension from offset
      p on.  Without one, the length is that of the last name, or lastLen. */
  function FirstSNI(data: seq<Byte>, start: nat, len: nat, p: nat, lastLen: int): (int, int)
    requires start + len <= |data|
    decreases len - p
  {
    if p + 4 > len then (-1, lastLen)
    else
      var extLen := Uint16(data, start + p + 2);
      var name := if Uint16(data, start + p) == EXT_TYPE_SNI && p + 4 + extLen <= len
                  then HostName(data, start + p + 4, extLen, 2, lastLen) else (-1, lastLen);
      if name.0 != -1 then name else FirstSNI(data, start, len, p + 4 + extLen, name.1)
  }

  function HostName(data: seq<Byte>, start: nat, len: nat, p: nat, lastLen: int): (int, int)
    requires start + len <= |data|
    decreases len - p
  {
    if p + 3 > len then (-1, lastLen)
    else
      var nameLen := Uint16(data, start + p + 1);
      if data[start + p] == 0 then (start + p + 3, nameLen)
      else HostName(data, start, len, p + 3 + nameLen, nameLen)
  }

  /** The outcome of the search, error cases included. */
  function Locate(data: seq<Byte>): Located {
    if |data| < 4 then UnexpectedEOF
    else if data[0] != 1 then Malformed
    else if |data| != 4 + data[1] as int * 65536 + Uint16(data, 2) then UnexpectedEOF
    else
      var start := ExtensionsStart(data);
      if start.None? || start.value + Uint16(data, start.value - 2) > |data| then UnexpectedEOF
      else Walk(data, start.value, Uint16(data, start.value - 2), 0, -1, 0, -1)
  }

  /** Walk over the extensions from offset p on, given what was found before. */
  function Walk(data: seq<Byte>, start: nat, len: nat, p: nat, sniPos: int, sniLen: int, echPos: int): Located
    requires start + len <= |data|
    decreases len - p
  {
    if p + 4 > len then Found(sniPos, sniLen, echPos)
    else
      var extLen := Uint16(data, start + p + 2);
      if p + 4 + extLen > len then UnexpectedEOF
      else if Uint16(data, start + p) == EXT_TYPE_SNI then
        if sniPos != -1 then Malformed
        else if !NamesFit(data, start + p + 4, extLen) then UnexpectedEOF
        else
          var name := HostName(data, start + p + 4, extLen, 2, sniLen);
          if name.0 != -1 && echPos != -1 then Found(name.0, name.1, echPos)
          else Walk(data, start, len, p + 4 + extLen, name.0, name.1, echPos)
      else if Uint16(data, start + p) == EXT_TYPE_ECH then
        if echPos != -1 then Malformed
        else if sniPos != -1 then Found(sniPos, sniLen, start + p)
        else Walk(data, start, len, p + 4 + extLen, sniPos, sniLen, start + p)
      else Walk(data, start, len, p + 4 + extLen, sniPos, sniLen, echPos)
  }

  /** The server name list has the announced length, and so have its names up to the first
      host_name. */
  predicate NamesFit(data: seq<Byte>, start: nat, len: nat)
    requires start + len <= |data|
  {
    2 <= len && len == 2 + Uint16(data, start) && NamesFitFrom(data, start, len, 2)
  }

  predicate NamesFitFrom(data: seq<Byte>, start: nat, len: nat, p: nat)
    requires start + len <= |data|
    decreases len - p
  {
    if p + 3 > len then true
    else
      var nameLen := Uint16(data, start + p + 1);
      p + 3 + nameLen <= len && (data[start + p] == 0 || NamesFitFrom(data, start, len, p + 3 + nameLen))
  }

  lemma {:induction false} HostNameInBounds(data: seq<Byte>, start: nat, len: nat, p: nat, lastLen: int)
    requires 4 < start && start + len <= |data| && NamesFitFrom(data, start, len, p) && 0 <= lastLen <= |data|
    ensures var (pos, n) := HostName(data, start, len, p, lastLen); InBounds(data, Found(pos, n, -1))
    decreases len - p
  {
    if p + 3 <= len && data[start + p] != 0 {
      var nameLen := Uint16(data, start + p + 1);
      HostNameInBounds(data, start, len, p + 3 + nameLen, nameLen);
    }
  }

  lemma {:induction false} WalkInBounds(data: seq<Byte>, start: nat, len: nat, p: nat, sniPos: int, sniLen: int,
                                        echPos: int)
    requires 4 < start && start + len <= |data| && InBounds(data, Found(sniPos, sniLen, echPos))
    ensures InBounds(data, Walk(data, start, len, p, sniPos, sniLen, echPos))
    decreases len - p
  {
    if p + 4 <= len {
      var extType, extLen := Uint16(data, start + p), Uint16(data, start + p + 2);
      if p + 4 + extLen <= len {
        if extType == EXT_TYPE_SNI {
          if sniPos == -1 && NamesFit(data, start + p + 4, extLen) {
            HostNameInBounds(data, start + p + 4, extLen, 2, sniLen);
            var name := HostName(data, start + p + 4, extLen, 2, sniLen);
            WalkInBounds(data, start, len, p + 4 + extLen, name.0, name.1, echPos);
          }
        } else if extType == EXT_TYPE_ECH {
          if echPos == -1 {
            WalkInBounds(data, start, len, p + 4 + extLen, sniPos, sniLen, start + p);
          }
        } else {
          WalkInBounds(data, start, len, p + 4 + extLen, sniPos, sniLen, echPos);
        }
      }
    }
  }

  lemma LocateInBounds(data: seq<Byte>)
    ensures InBounds(data, Locate(data))
  {
    hide Walk;
    var start := ExtensionsStart(data);
    if start.Some? && start.value + Uint16(data, start.value - 2) <= |data| {
      WalkInBounds(data, start.value, Uint16(data, start.value - 2), 0, -1, 0, -1);
    }
  }

  method FindSNIAndECH(data: seq<Byte>) returns (r: Located)
    ensures InBounds(data, r) && Accurate(data, r)
    ensures r == Locate(data)
    ensures r.Found? ==>
              var start := ExtensionsStart(data).value;
              var len := Uint16(data, start - 2);
              && (r.sniPos, r.sniLen) == FirstSNI(data, start, len, 0, 0)
              && r.echPos == FirstECH(data, start, len, 0)
  {
    if |data| < 4 {
      return UnexpectedEOF;
    }
    if data[0] != 1 {
      return Malformed;
    }
    if |data| != 4 + data[1] as int * 65536 + Uint16(data, 2) {
      return UnexpectedEOF;
    }
    // the protocol version and the random
    var pos := 4 + 2 + 32;
    var ok: bool;
    ok, pos := SkipVector1(data, pos);  // session ID
    if !ok {
      return UnexpectedEOF;
    }
    ok, pos := SkipVector2(data, pos);  // cipher suites
    if !ok {
      return UnexpectedEOF;
    }
    ok, pos := SkipVector1(data, pos);  // compression methods
    if !ok || pos + 2 > |data| {
      return UnexpectedEOF;
    }
    var extensionsLen := Uint16(data, pos);
    pos := pos + 2;
    if pos + extensionsLen > |data| {
      return UnexpectedEOF;
    }
    r := ScanExtensions(data, pos, extensionsLen);
  }

  // Skip a vector with a one-byte length; the check that there is a length byte is included.
  method SkipVector1(data: seq<Byte>, start: nat) returns (ok: bool, pos: nat)
    ensures ok <==> start < |data| && start + 1 + data[start] as int <= |data|
    ensures ok ==> pos == start + 1 + data[start] as int
  {
    if start + 1 > |data| {
      return false, start;
    }
    pos := start + 1 + data[start] as int;
    ok := pos <= |data|;
  }

  method SkipVector2(data: seq<Byte>, start: nat) returns (ok: bool, pos: nat)
    ensures ok <==> start + 2 <= |data| && start + 2 + Uint16(data, start) <= |data|
    ensures ok ==> pos == start + 2 + Uint16(data, start)
  {
    if start + 2 > |data| {
      return false, start;
    }
    pos := start + 2 + Uint16(data, start);
    ok := pos <= |data|;
  }

  method ScanExtensions(data: seq<Byte>, extensionsStart: nat, extensionsLen: nat) returns (r: Located)
    requires 4 < extensionsStart && extensionsStart + extensionsLen <= |data|
    ensures InBounds(data, r) && Accurate(data, r)
    ensures r == Walk(data, extensionsStart, extensionsLen, 0, -1, 0, -1)
    ensures r.Found? ==> (r.sniPos, r.sniLen) == FirstSNI(data, extensionsStart, extensionsLen, 0, 0)
    ensures r.Found? ==> r.echPos == FirstECH(data, extensionsStart, extensionsLen, 0)
  {
    var extPos, sniPos, sniLen, echPos := 0, -1, 0, -1;
    while extPos + 4 <= extensionsLen
      invariant 0 <= extPos <= extensionsLen
      invariant sniPos == -1 || echPos == -1
      invariant Walk(data, extensionsStart, extensionsLen, 0, -1, 0, -1) ==
                Walk(data, extensionsStart, extensionsLen, extPos, sniPos, sniLen, echPos)
      invariant InBounds(data, Found(sniPos, sniLen, echPos)) && Accurate(data, Found(sniPos, sniLen, echPos))
      invariant FirstSNI(data, extensionsStart, extensionsLen, 0, 0) ==
                if sniPos != -1 then (sniPos, sniLen)
                    else FirstSNI(data, extensionsStart, extensionsLen, extPos, sniLen)
      invariant FirstECH(data, extensionsStart, extensionsLen, 0) ==
                if echPos != -1 then echPos else FirstECH(data, extensionsStart, extensionsLen, extPos)
      decreases extensionsLen - extPos
    {
      var extType := Uint16(data, extensionsStart + extPos);
      var extLen := Uint16(data, extensionsStart + extPos + 2);
      if extPos + 4 + extLen > extensionsLen {
        return UnexpectedEOF;
      }
      if extType == EXT_TYPE_SNI {
        if sniPos != -1 {
          return Malformed;
        }
        var ok;
        ok, sniPos, sniLen := ScanServerNames(data, extensionsStart + extPos + 4, extLen, sniLen);
        if !ok {
          return UnexpectedEOF;
        }
      } else if extType == EXT_TYPE_ECH {
        if echPos != -1 {
          return Malformed;
        }
        echPos := extensionsStart + extPos;
      }
      extPos := extPos + 4 + extLen;
      if sniPos != -1 && echPos != -1 {
        return Found(sniPos, sniLen, echPos);
      }
    }
    r := Found(sniPos, sniLen, echPos);
  }

  // The first host_name in a server name list.  Without one, the length of the last name is
  // still reported.
  method ScanServerNames(data: seq<Byte>, start: nat, len: nat, oldLen: nat)
    returns (ok: bool, sniPos: int, sniLen: int)
    requires 4 < start && start + len <= |data| && oldLen <= |data|
    ensures ok ==> InBounds(data, Found(sniPos, sniLen, -1)) && Accurate(data, Found(sniPos, sniLen, -1))
    ensures ok <==> NamesFit(data, start, len)
    ensures ok ==> (sniPos, sniLen) == HostName(data, start, len, 2, oldLen)
  {
    sniPos, sniLen := -1, oldLen;
    if len < 2 {
      return false, sniPos, sniLen;
    }
    var nameListLen := Uint16(data, start);
    if len != 2 + nameListLen {
      return false, sniPos, sniLen;
    }
    var listPos := 2;
    while listPos + 3 <= nameListLen + 2
      invariant 2 <= listPos <= len
      invariant 0 <= sniLen <= |data| && sniPos == -1
      invariant NamesFit(data, start, len) == NamesFitFrom(data, start, len, listPos)
      invariant HostName(data, start, len, 2, oldLen) == HostName(data, start, len, listPos, sniLen)
      decreases len - listPos
    {
      var nameType := data[start + listPos];
      sniLen := Uint16(data, start + listPos + 1);
      if listPos + 3 + sniLen > len {
        return false, sniPos, sniLen;
      }
      if nameType == 0 {
        sniPos := start + listPos + 3;
        break;
      }
      listPos := listPos + 3 + sniLen;
    }
    ok := true;
  }
}
