/** The table that swaps bits to make up for a board error. */
module BitmixTable {
  function Bitmix(i: bv8): bv8 {
    if i < 0x80 then
      if i < 0x40 then
        if i < 0x20 then
          if i < 0x10 then
            if i == 0x00 then 0x00 else if i == 0x01 then 0x08 else if i == 0x02 then 0x04 else
            if i == 0x03 then 0x0C else if i == 0x04 then 0x02 else if i == 0x05 then 0x0A else
            if i == 0x06 then 0x06 else if i == 0x07 then 0x0E else if i == 0x08 then 0x01 else
            if i == 0x09 then 0x09 else if i == 0x0A then 0x05 else if i == 0x0B then 0x0D else
            if i == 0x0C then 0x03 else if i == 0x0D then 0x0B else if i == 0x0E then 0x07 else 0x0F
          else
            if i == 0x10 then 0x80 else if i == 0x11 then 0x88 else if i == 0x12 then 0x84 else
            if i == 0x13 then 0x8C else if i == 0x14 then 0x82 else if i == 0x15 then 0x8A else
            if i == 0x16 then 0x86 else if i == 0x17 then 0x8E else if i == 0x18 then 0x81 else
            if i == 0x19 then 0x89 else if i == 0x1A then 0x85 else if i == 0x1B then 0x8D else
            if i == 0x1C then 0x83 else if i == 0x1D then 0x8B else if i == 0x1E then 0x87 else 0x8F
        else
          if i < 0x30 then
            if i == 0x20 then 0x40 else if i == 0x21 then 0x48 else if i == 0x22 then 0x44 else
            if i == 0x23 then 0x4C else if i == 0x24 then 0x42 else if i == 0x25 then 0x4A else
            if i == 0x26 then 0x46 else if i == 0x27 then 0x4E else if i == 0x28 then 0x41 else
            if i == 0x29 then 0x49 else if i == 0x2A then 0x45 else if i == 0x2B then 0x4D else
            if i == 0x2C then 0x43 else if i == 0x2D then 0x4B else if i == 0x2E then 0x47 else 0x4F
          else
            if i == 0x30 then 0xC0 else if i == 0x31 then 0xC8 else if i == 0x32 then 0xC4 else
            if i == 0x33 then 0xCC else if i == 0x34 then 0xC2 else if i == 0x35 then 0xCA else
            if i == 0x36 then 0xC6 else if i == 0x37 then 0xCE else if i == 0x38 then 0xC1 else
            if i == 0x39 then 0xC9 else if i == 0x3A then 0xC5 else if i == 0x3B then 0xCD else
            if i == 0x3C then 0xC3 else if i == 0x3D then 0xCB else if i == 0x3E then 0xC7 else 0xCF
      else
        if i < 0x60 then
          if i < 0x50 then
            if i == 0x40 then 0x20 else if i == 0x41 then 0x28 else if i == 0x42 then 0x24 else
            if i == 0x43 then 0x2C else if i == 0x44 then 0x22 else if i == 0x45 then 0x2A else
            if i == 0x46 then 0x26 else if i == 0x47 then 0x2E else if i == 0x48 then 0x21 else
            if i == 0x49 then 0x29 else if i == 0x4A then 0x25 else if i == 0x4B then 0x2D else
            if i == 0x4C then 0x23 else if i == 0x4D then 0x2B else if i == 0x4E then 0x27 else 0x2F
          else
            if i == 0x50 then 0xA0 else if i == 0x51 then 0xA8 else if i == 0x52 then 0xA4 else
            if i == 0x53 then 0xAC else if i == 0x54 then 0xA2 else if i == 0x55 then 0xAA else
            if i == 0x56 then 0xA6 else if i == 0x57 then 0xAE else if i == 0x58 then 0xA1 else
            if i == 0x59 then 0xA9 else if i == 0x5A then 0xA5 else if i == 0x5B then 0xAD else
            if i == 0x5C then 0xA3 else if i == 0x5D then 0xAB else if i == 0x5E then 0xA7 else 0xAF
        else
          if i < 0x70 then
            if i == 0x60 then 0x60 else if i == 0x61 then 0x68 else if i == 0x62 then 0x64 else
            if i == 0x63 then 0x6C else if i == 0x64 then 0x62 else if i == 0x65 then 0x6A else
            if i == 0x66 then 0x66 else if i == 0x67 then 0x6E else if i == 0x68 then 0x61 else
            if i == 0x69 then 0x69 else if i == 0x6A then 0x65 else if i == 0x6B then 0x6D else
            if i == 0x6C then 0x63 else if i == 0x6D then 0x6B else if i == 0x6E then 0x67 else 0x6F
          else
            if i == 0x70 then 0xE0 else if i == 0x71 then 0xE8 else if i == 0x72 then 0xE4 else
            if i == 0x73 then 0xEC else if i == 0x74 then 0xE2 else if i == 0x75 then 0xEA else
            if i == 0x76 then 0xE6 else if i == 0x77 then 0xEE else if i == 0x78 then 0xE1 else
            if i == 0x79 then 0xE9 else if i == 0x7A then 0xE5 else if i == 0x7B then 0xED else
            if i == 0x7C then 0xE3 else if i == 0x7D then 0xEB else if i == 0x7E then 0xE7 else 0xEF
    else
      if i < 0xC0 then
        if i < 0xA0 then
          if i < 0x90 then
            if i == 0x80 then 0x10 else if i == 0x81 then 0x18 else if i == 0x82 then 0x14 else
            if i == 0x83 then 0x1C else if i == 0x84 then 0x12 else if i == 0x85 then 0x1A else
            if i == 0x86 then 0x16 else if i == 0x87 then 0x1E else if i == 0x88 then 0x11 else
            if i == 0x89 then 0x19 else if i == 0x8A then 0x15 else if i == 0x8B then 0x1D else
            if i == 0x8C then 0x13 else if i == 0x8D then 0x1B else if i == 0x8E then 0x17 else 0x1F
          else
            if i == 0x90 then 0x90 else if i == 0x91 then 0x98 else if i == 0x92 then 0x94 else
            if i == 0x93 then 0x9C else if i == 0x94 then 0x92 else if i == 0x95 then 0x9A else
            if i == 0x96 then 0x96 else if i == 0x97 then 0x9E else if i == 0x98 then 0x91 else
            if i == 0x99 then 0x99 else if i == 0x9A then 0x95 else if i == 0x9B then 0x9D else
            if i == 0x9C then 0x93 else if i == 0x9D then 0x9B else if i == 0x9E then 0x97 else 0x9F
        else
          if i < 0xB0 then
            if i == 0xA0 then 0x50 else if i == 0xA1 then 0x58 else if i == 0xA2 then 0x54 else
            if i == 0xA3 then 0x5C else if i == 0xA4 then 0x52 else if i == 0xA5 then 0x5A else
            if i == 0xA6 then 0x56 else if i == 0xA7 then 0x5E else if i == 0xA8 then 0x51 else
            if i == 0xA9 then 0x59 else if i == 0xAA then 0x55 else if i == 0xAB then 0x5D else
            if i == 0xAC then 0x53 else if i == 0xAD then 0x5B else if i == 0xAE then 0x57 else 0x5F
          else
            if i == 0xB0 then 0xD0 else if i == 0xB1 then 0xD8 else if i == 0xB2 then 0xD4 else
            if i == 0xB3 then 0xDC else if i == 0xB4 then 0xD2 else if i == 0xB5 then 0xDA else
            if i == 0xB6 then 0xD6 else if i == 0xB7 then 0xDE else if i == 0xB8 then 0xD1 else
            if i == 0xB9 then 0xD9 else if i == 0xBA then 0xD5 else if i == 0xBB then 0xDD else
            if i == 0xBC then 0xD3 else if i == 0xBD then 0xDB else if i == 0xBE then 0xD7 else 0xDF
      else
        if i < 0xE0 then
          if i < 0xD0 then
            if i == 0xC0 then 0x30 else if i == 0xC1 then 0x38 else if i == 0xC2 then 0x34 else
            if i == 0xC3 then 0x3C else if i == 0xC4 then 0x32 else if i == 0xC5 then 0x3A else
            if i == 0xC6 then 0x36 else if i == 0xC7 then 0x3E else if i == 0xC8 then 0x31 else
            if i == 0xC9 then 0x39 else if i == 0xCA then 0x35 else if i == 0xCB then 0x3D else
            if i == 0xCC then 0x33 else if i == 0xCD then 0x3B else if i == 0xCE then 0x37 else 0x3F
          else
            if i == 0xD0 then 0xB0 else if i == 0xD1 then 0xB8 else if i == 0xD2 then 0xB4 else
            if i == 0xD3 then 0xBC else if i == 0xD4 then 0xB2 else if i == 0xD5 then 0xBA else
            if i == 0xD6 then 0xB6 else if i == 0xD7 then 0xBE else if i == 0xD8 then 0xB1 else
            if i == 0xD9 then 0xB9 else if i == 0xDA then 0xB5 else if i == 0xDB then 0xBD else
            if i == 0xDC then 0xB3 else if i == 0xDD then 0xBB else if i == 0xDE then 0xB7 else 0xBF
        else
          if i < 0xF0 then
            if i == 0xE0 then 0x70 else if i == 0xE1 then 0x78 else if i == 0xE2 then 0x74 else
            if i == 0xE3 then 0x7C else if i == 0xE4 then 0x72 else if i == 0xE5 then 0x7A else
            if i == 0xE6 then 0x76 else if i == 0xE7 then 0x7E else if i == 0xE8 then 0x71 else
            if i == 0xE9 then 0x79 else if i == 0xEA then 0x75 else if i == 0xEB then 0x7D else
            if i == 0xEC then 0x73 else if i == 0xED then 0x7B else if i == 0xEE then 0x77 else 0x7F
          else
            if i == 0xF0 then 0xF0 else if i == 0xF1 then 0xF8 else if i == 0xF2 then 0xF4 else
            if i == 0xF3 then 0xFC else if i == 0xF4 then 0xF2 else if i == 0xF5 then 0xFA else
            if i == 0xF6 then 0xF6 else if i == 0xF7 then 0xFE else if i == 0xF8 then 0xF1 else
            if i == 0xF9 then 0xF9 else if i == 0xFA then 0xF5 else if i == 0xFB then 0xFD else
            if i == 0xFC then 0xF3 else if i == 0xFD then 0xFB else if i == 0xFE then 0xF7 else 0xFF
  }
}
