/** The sixteen-byte SOME/IP header and its codec. */
module SomeIpHeader {
  import opened Bytes

  datatype Header = Header(serviceId: int, methodId: int, length: int, clientId: int, sessionId: int,
                           protocolVersion: int, interfaceVersion: int, messageType: int, returnCode: int)
  {
    predicate Fits() {
      && InU16(serviceId) && InU16(methodId) && InU32(length) && InU16(clientId) && InU16(sessionId)
      && InU8(protocolVersion) && InU8(interfaceVersion) && InU8(messageType) && InU8(returnCode)
    }

    predicate IsSdHeader() {
      && serviceId == 0xFFFF && methodId == 0x8100 && clientId == 0 && protocolVersion == 1
      && interfaceVersion == 1 && messageType == 2 && returnCode == 0 && sessionId != 0
    }

    function ToBuffer(): (r: Result<seq<byte>>)
      ensures r.Ok? ==> |r.value| == 16
    {
      if !Fits() then Err(StructError)
      else Ok(Be16(serviceId) + Be16(methodId) + Be32(length) + Be16(clientId) + Be16(sessionId)
              + [protocolVersion, interfaceVersion, messageType, returnCode])
    }
  }

  function FieldsAt(data: seq<byte>): Header
    requires |data| >= 16
  {
    Header(At16(data, 0), At16(data, 2), At32(data, 4), At16(data, 8), At16(data, 10),
           data[12], data[13], data[14], data[15])
  }

  /** A header whose length does not even cover its own second half is rejected. */
  function FromBuffer(data: seq<byte>): Result<Header> {
    if |data| < 8 then Err(StructError)
    else if At32(data, 4) < 8 then Err(ValueError)
    else if |data| < 16 then Err(StructError)
    else Ok(FieldsAt(data))
  }

  /** Printing and parsing a header are inverse to each other, in both directions. */
  lemma HeaderInverse(header: Header, data: seq<byte>)
    requires |data| >= 16
    ensures header.ToBuffer() == Ok(data[..16]) <==> FieldsAt(data) == header
  {
    var fields := FieldsAt(data);
    At16Inverse(data, 0, fields.serviceId);
    At16Inverse(data, 2, fields.methodId);
    At32Inverse(data, 4, fields.length);
    At16Inverse(data, 8, fields.clientId);
    At16Inverse(data, 10, fields.sessionId);
    assert data[12..16] == [data[12], data[13], data[14], data[15]];
    assert data[..16] == data[0..2] + data[2..4] + data[4..8] + data[8..10] + data[10..12] + data[12..16];
    assert fields.ToBuffer() == Ok(data[..16]);
    if header.ToBuffer() == Ok(data[..16]) {
      SameBytesSameHeader(header, fields);
    }
  }

  lemma SameBytesSameHeader(h: Header, g: Header)
    requires h.ToBuffer().Ok? && h.ToBuffer() == g.ToBuffer()
    ensures h == g
  {
    var b := h.ToBuffer().value;
    HeaderParts(h);
    HeaderParts(g);
    At16Inverse(b, 0, h.serviceId);
    At16Inverse(b, 0, g.serviceId);
    At16Inverse(b, 2, h.methodId);
    At16Inverse(b, 2, g.methodId);
    At32Inverse(b, 4, h.length);
    At32Inverse(b, 4, g.length);
    At16Inverse(b, 8, h.clientId);
    At16Inverse(b, 8, g.clientId);
    At16Inverse(b, 10, h.sessionId);
    At16Inverse(b, 10, g.sessionId);
  }

  lemma HeaderParts(h: Header)
    requires h.Fits()
    ensures var b := h.ToBuffer().value;
            && b[0..2] == Be16(h.serviceId) && b[2..4] == Be16(h.methodId) && b[4..8] == Be32(h.length)
            && b[8..10] == Be16(h.clientId) && b[10..12] == Be16(h.sessionId)
            && b[12] == h.protocolVersion && b[13] == h.interfaceVersion
            && b[14] == h.messageType && b[15] == h.returnCode
  {
  }

  /** A printed header is read back, whatever follows it, if and only if its length covers its own
      second half. */
  lemma HeaderReads(header: Header, more: seq<byte>)
    requires header.Fits()
    ensures FromBuffer(header.ToBuffer().value + more) == if header.length >= 8 then Ok(header) else Err(ValueError)
  {
    var data := header.ToBuffer().value + more;
    assert data[..16] == header.ToBuffer().value;
    HeaderInverse(header, data);
  }
}
