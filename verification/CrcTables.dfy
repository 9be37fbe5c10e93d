/** The four 256-byte tables of the CRC: byte 0, 1, 2 and 3 of the remainder of each index. */
module CrcTables {
  /** Byte `i` modulo 16 of a row of sixteen, the first one written leftmost. */
  function Pick(row: bv128, i: bv8): bv8 {
    var r8 := if i & 8 == 0 then row >> 64 else row;
    var r4 := if i & 4 == 0 then r8 >> 32 else r8;
    var r2 := if i & 2 == 0 then r4 >> 16 else r4;
    var r1 := if i & 1 == 0 then r2 >> 8 else r2;
    (r1 & 0xFF) as bv8
  }

  function Row0(n: bv8): bv128 {
    if n == 0 then 0x00962CBA198F35A332A41E882BBD0791
    else if n == 1 then 0x64F248DE7DEB51C756C07AEC4FD963F5
    else if n == 2 then 0xC85EE472D147FD6BFA6CD640E375CF59
    else if n == 3 then 0xAC3A8016B523990F9E08B2248711AB3D
    else if n == 4 then 0x9006BC2A891FA533A2348E18BB2D9701
    else if n == 5 then 0xF462D84EED7BC157C650EA7CDF49F365
    else if n == 6 then 0x58CE74E241D76DFB6AFC46D073E55FC9
    else if n == 7 then 0x3CAA108625B3099F0E9822B417813BAD
    else if n == 8 then 0x20B60C9A39AF158312843EA80B9D27B1
    else if n == 9 then 0x44D268FE5DCB71E776E05ACC6FF943D5
    else if n == 10 then 0xE87EC452F167DD4BDA4CF660C355EF79
    else if n == 11 then 0x8C1AA0369503B92FBE289204A7318B1D
    else if n == 12 then 0xB0269C0AA93F85138214AE389B0DB721
    else if n == 13 then 0xD442F86ECD5BE177E670CA5CFF69D345
    else if n == 14 then 0x78EE54C261F74DDB4ADC66F053C57FE9
    else 0x1C8A30A6059329BF2EB8029437A11B8D
  }

  function Row1(n: bv8): bv128 {
    if n == 0 then 0x00306151C4F4A59588B8E9D94C7C2D1D
    else if n == 1 then 0x10207141D4E4B58598A8F9C95C6C3D0D
    else if n == 2 then 0x20104171E4D485B5A898C9F96C5C0D3D
    else if n == 3 then 0x30005161F4C495A5B888D9E97C4C1D2D
    else if n == 4 then 0x4171201085B5E4D4C9F9A8980D3D6C5C
    else if n == 5 then 0x5161300095A5F4C4D9E9B8881D2D7C4C
    else if n == 6 then 0x61510030A595C4F4E9D988B82D1D4C7C
    else if n == 7 then 0x71411020B585D4E4F9C998A83D0D5C6C
    else if n == 8 then 0x83B3E2D2477726160B3B6A5ACFFFAE9E
    else if n == 9 then 0x93A3F2C2576736061B2B7A4ADFEFBE8E
    else if n == 10 then 0xA393C2F2675706362B1B4A7AEFDF8EBE
    else if n == 11 then 0xB383D2E2774716263B0B5A6AFFCF9EAE
    else if n == 12 then 0xC2F2A393063667574A7A2B1B8EBEEFDF
    else if n == 13 then 0xD2E2B383162677475A6A3B0B9EAEFFCF
    else if n == 14 then 0xE2D283B3261647776A5A0B3BAE9ECFFF
    else 0xF2C293A3360657677A4A1B2BBE8EDFEF
  }

  function Row2(n: bv8): bv128 {
    if n == 0 then 0x00070E096D6A6364DBDCD5D2B6B1B8BF
    else if n == 1 then 0xB7B0B9BEDADDD4D36C6B626501060F08
    else if n == 2 then 0x6E69606703040D0AB5B2BBBCD8DFD6D1
    else if n == 3 then 0xD9DED7D0B4B3BABD02050C0B6F686166
    else if n == 4 then 0xDCDBD2D5B1B6BFB80700090E6A6D6463
    else if n == 5 then 0x6B6C65620601080FB0B7BEB9DDDAD3D4
    else if n == 6 then 0xB2B5BCBBDFD8D1D6696E676004030A0D
    else if n == 7 then 0x05020B0C686F6661DED9D0D7B3B4BDBA
    else if n == 8 then 0xB8BFB6B1D5D2DBDC63646D6A0E090007
    else if n == 9 then 0x0F08010662656C6BD4D3DADDB9BEB7B0
    else if n == 10 then 0xD6D1D8DFBBBCB5B20D0A030460676E69
    else if n == 11 then 0x61666F680C0B0205BABDB4B3D7D0D9DE
    else if n == 12 then 0x64636A6D090E0700BFB8B1B6D2D5DCDB
    else if n == 13 then 0xD3D4DDDABEB9B0B7080F060165626B6C
    else if n == 14 then 0x0A0D04036760696ED1D6DFD8BCBBB2B5
    else 0xBDBAB3B4D0D7DED96661686F0B0C0502
  }

  function Row3(n: bv8): bv128 {
    if n == 0 then 0x0077EE990770E99E0E79E097097EE790
    else if n == 1 then 0x1D6AF3841A6DF4831364FD8A1463FA8D
    else if n == 2 then 0x3B4CD5A23C4BD2A53542DBAC3245DCAB
    else if n == 3 then 0x2651C8BF2156CFB8285FC6B12F58C1B6
    else if n == 4 then 0x760198EF71069FE8780F96E17F0891E6
    else if n == 5 then 0x6B1C85F26C1B82F565128BFC62158CFB
    else if n == 6 then 0x4D3AA3D44A3DA4D34334ADDA4433AADD
    else if n == 7 then 0x5027BEC95720B9CE5E29B0C7592EB7C0
    else if n == 8 then 0xED9A0374EA9D0473E3940D7AE4930A7D
    else if n == 9 then 0xF0871E69F780196EFE891067F98E1760
    else if n == 10 then 0xD6A1384FD1A63F48D8AF3641DFA83146
    else if n == 11 then 0xCBBC2552CCBB2255C5B22B5CC2B52C5B
    else if n == 12 then 0x9BEC75029CEB720595E27B0C92E57C0B
    else if n == 13 then 0x86F1681F81F66F1888FF66118FF86116
    else if n == 14 then 0xA0D74E39A7D0493EAED94037A9DE4730
    else 0xBDCA5324BACD5423B3C45D2AB4C35A2D
  }

  function Table0(i: bv8): bv8 {
    Pick(Row0(i >> 4), i)
  }

  function Table1(i: bv8): bv8 {
    Pick(Row1(i >> 4), i)
  }

  function Table2(i: bv8): bv8 {
    Pick(Row2(i >> 4), i)
  }

  function Table3(i: bv8): bv8 {
    Pick(Row3(i >> 4), i)
  }
}
