/**
 * src/crc32.cpp: the table-driven register against the shift register of
 * RFC 1952, section 8, and what a division by this polynomial detects.
 */
module Crc32 {

  // ----- words as an exclusive-or group; only the lemmas of this part look inside -----

  function Xor(a: bv32, b: bv32): bv32 { a ^ b }
  function Complement(a: bv32): bv32 { !a }
  function Half(c: bv32): bv32 { c >> 1 }
  function Feedback(c: bv32): bv32 { if c & 1 == 1 then 0xedb88320 else 0 }

  lemma XorAssociates(a: bv32, b: bv32, c: bv32)
    ensures Xor(Xor(a, b), c) == Xor(a, Xor(b, c))
  {
    assert (a ^ b) ^ c == a ^ (b ^ c);
  }

  lemma XorCommutes(a: bv32, b: bv32)
    ensures Xor(a, b) == Xor(b, a)
  {}

  lemma XorCancels(a: bv32)
    ensures Xor(a, 0) == a && Xor(a, a) == 0
  {}

  lemma XorMiddle(a: bv32, b: bv32, c: bv32, d: bv32)
    ensures Xor(Xor(a, b), Xor(c, d)) == Xor(Xor(a, c), Xor(b, d))
  {
    hide Xor;
    XorAssociates(a, b, Xor(c, d));
    XorAssociates(b, c, d);
    XorCommutes(b, c);
    XorAssociates(c, b, d);
    XorAssociates(a, c, Xor(b, d));
  }

  lemma HalfOfXor(a: bv32, b: bv32)
    ensures Half(Xor(a, b)) == Xor(Half(a), Half(b))
  {}

  lemma FeedbackOfXor(a: bv32, b: bv32)
    ensures Feedback(Xor(a, b)) == Xor(Feedback(a), Feedback(b))
  {}

  // ----- RFC 1952, section 8 -----

  /** One bit of the polynomial division. */
  function Step(c: bv32): bv32 { Xor(Half(c), Feedback(c)) }

  function Eight(c: bv32): bv32 { Step(Step(Step(Step(Step(Step(Step(Step(c)))))))) }

  /** The byte enters at the low end; then eight shift-and-xor steps. */
  function Bitwise(c: bv32, b: bv32): bv32 { Eight(Xor(c, b)) }

  function Widen(b: bv8): bv32 { b as bv32 }

  /** The register after data, bit by bit. */
  function Register(c: bv32, data: seq<bv8>): bv32
    decreases |data|
  {
    if |data| == 0 then c else Register(Bitwise(c, Widen(data[0])), data[1..])
  }

  /** The CRC of RFC 1952: preset to ones, complemented at the end. */
  function Crc(data: seq<bv8>): bv32 { Complement(Register(0xffffffff, data)) }

  // ----- crc32tab -----

  function Row0(x: bv32): bv32 {
    if x == 0 then 0x00000000 else if x == 1 then 0x77073096 else
    if x == 2 then 0xee0e612c else if x == 3 then 0x990951ba else
    if x == 4 then 0x076dc419 else if x == 5 then 0x706af48f else
    if x == 6 then 0xe963a535 else if x == 7 then 0x9e6495a3 else
    if x == 8 then 0x0edb8832 else if x == 9 then 0x79dcb8a4 else
    if x == 10 then 0xe0d5e91e else if x == 11 then 0x97d2d988 else
    if x == 12 then 0x09b64c2b else if x == 13 then 0x7eb17cbd else if x == 14 then 0xe7b82d07 else 0x90bf1d91
  }

  function Row1(x: bv32): bv32 {
    if x == 16 then 0x1db71064 else if x == 17 then 0x6ab020f2 else
    if x == 18 then 0xf3b97148 else if x == 19 then 0x84be41de else
    if x == 20 then 0x1adad47d else if x == 21 then 0x6ddde4eb else
    if x == 22 then 0xf4d4b551 else if x == 23 then 0x83d385c7 else
    if x == 24 then 0x136c9856 else if x == 25 then 0x646ba8c0 else
    if x == 26 then 0xfd62f97a else if x == 27 then 0x8a65c9ec else
    if x == 28 then 0x14015c4f else if x == 29 then 0x63066cd9 else if x == 30 then 0xfa0f3d63 else 0x8d080df5
  }

  function Row2(x: bv32): bv32 {
    if x == 32 then 0x3b6e20c8 else if x == 33 then 0x4c69105e else
    if x == 34 then 0xd56041e4 else if x == 35 then 0xa2677172 else
    if x == 36 then 0x3c03e4d1 else if x == 37 then 0x4b04d447 else
    if x == 38 then 0xd20d85fd else if x == 39 then 0xa50ab56b else
    if x == 40 then 0x35b5a8fa else if x == 41 then 0x42b2986c else
    if x == 42 then 0xdbbbc9d6 else if x == 43 then 0xacbcf940 else
    if x == 44 then 0x32d86ce3 else if x == 45 then 0x45df5c75 else if x == 46 then 0xdcd60dcf else 0xabd13d59
  }

  function Row3(x: bv32): bv32 {
    if x == 48 then 0x26d930ac else if x == 49 then 0x51de003a else
    if x == 50 then 0xc8d75180 else if x == 51 then 0xbfd06116 else
    if x == 52 then 0x21b4f4b5 else if x == 53 then 0x56b3c423 else
    if x == 54 then 0xcfba9599 else if x == 55 then 0xb8bda50f else
    if x == 56 then 0x2802b89e else if x == 57 then 0x5f058808 else
    if x == 58 then 0xc60cd9b2 else if x == 59 then 0xb10be924 else
    if x == 60 then 0x2f6f7c87 else if x == 61 then 0x58684c11 else if x == 62 then 0xc1611dab else 0xb6662d3d
  }

  function Row4(x: bv32): bv32 {
    if x == 64 then 0x76dc4190 else if x == 65 then 0x01db7106 else
    if x == 66 then 0x98d220bc else if x == 67 then 0xefd5102a else
    if x == 68 then 0x71b18589 else if x == 69 then 0x06b6b51f else
    if x == 70 then 0x9fbfe4a5 else if x == 71 then 0xe8b8d433 else
    if x == 72 then 0x7807c9a2 else if x == 73 then 0x0f00f934 else
    if x == 74 then 0x9609a88e else if x == 75 then 0xe10e9818 else
    if x == 76 then 0x7f6a0dbb else if x == 77 then 0x086d3d2d else if x == 78 then 0x91646c97 else 0xe6635c01
  }

  function Row5(x: bv32): bv32 {
    if x == 80 then 0x6b6b51f4 else if x == 81 then 0x1c6c6162 else
    if x == 82 then 0x856530d8 else if x == 83 then 0xf262004e else
    if x == 84 then 0x6c0695ed else if x == 85 then 0x1b01a57b else
    if x == 86 then 0x8208f4c1 else if x == 87 then 0xf50fc457 else
    if x == 88 then 0x65b0d9c6 else if x == 89 then 0x12b7e950 else
    if x == 90 then 0x8bbeb8ea else if x == 91 then 0xfcb9887c else
    if x == 92 then 0x62dd1ddf else if x == 93 then 0x15da2d49 else if x == 94 then 0x8cd37cf3 else 0xfbd44c65
  }

  function Row6(x: bv32): bv32 {
    if x == 96 then 0x4db26158 else if x == 97 then 0x3ab551ce else
    if x == 98 then 0xa3bc0074 else if x == 99 then 0xd4bb30e2 else
    if x == 100 then 0x4adfa541 else if x == 101 then 0x3dd895d7 else
    if x == 102 then 0xa4d1c46d else if x == 103 then 0xd3d6f4fb else
    if x == 104 then 0x4369e96a else if x == 105 then 0x346ed9fc else
    if x == 106 then 0xad678846 else if x == 107 then 0xda60b8d0 else
    if x == 108 then 0x44042d73 else if x == 109 then 0x33031de5 else if x == 110 then 0xaa0a4c5f else 0xdd0d7cc9
  }

  function Row7(x: bv32): bv32 {
    if x == 112 then 0x5005713c else if x == 113 then 0x270241aa else
    if x == 114 then 0xbe0b1010 else if x == 115 then 0xc90c2086 else
    if x == 116 then 0x5768b525 else if x == 117 then 0x206f85b3 else
    if x == 118 then 0xb966d409 else if x == 119 then 0xce61e49f else
    if x == 120 then 0x5edef90e else if x == 121 then 0x29d9c998 else
    if x == 122 then 0xb0d09822 else if x == 123 then 0xc7d7a8b4 else
    if x == 124 then 0x59b33d17 else if x == 125 then 0x2eb40d81 else if x == 126 then 0xb7bd5c3b else 0xc0ba6cad
  }

  function Row8(x: bv32): bv32 {
    if x == 128 then 0xedb88320 else if x == 129 then 0x9abfb3b6 else
    if x == 130 then 0x03b6e20c else if x == 131 then 0x74b1d29a else
    if x == 132 then 0xead54739 else if x == 133 then 0x9dd277af else
    if x == 134 then 0x04db2615 else if x == 135 then 0x73dc1683 else
    if x == 136 then 0xe3630b12 else if x == 137 then 0x94643b84 else
    if x == 138 then 0x0d6d6a3e else if x == 139 then 0x7a6a5aa8 else
    if x == 140 then 0xe40ecf0b else if x == 141 then 0x9309ff9d else if x == 142 then 0x0a00ae27 else 0x7d079eb1
  }

  function Row9(x: bv32): bv32 {
    if x == 144 then 0xf00f9344 else if x == 145 then 0x8708a3d2 else
    if x == 146 then 0x1e01f268 else if x == 147 then 0x6906c2fe else
    if x == 148 then 0xf762575d else if x == 149 then 0x806567cb else
    if x == 150 then 0x196c3671 else if x == 151 then 0x6e6b06e7 else
    if x == 152 then 0xfed41b76 else if x == 153 then 0x89d32be0 else
    if x == 154 then 0x10da7a5a else if x == 155 then 0x67dd4acc else
    if x == 156 then 0xf9b9df6f else if x == 157 then 0x8ebeeff9 else if x == 158 then 0x17b7be43 else 0x60b08ed5
  }

  function Row10(x: bv32): bv32 {
    if x == 160 then 0xd6d6a3e8 else if x == 161 then 0xa1d1937e else
    if x == 162 then 0x38d8c2c4 else if x == 163 then 0x4fdff252 else
    if x == 164 then 0xd1bb67f1 else if x == 165 then 0xa6bc5767 else
    if x == 166 then 0x3fb506dd else if x == 167 then 0x48b2364b else
    if x == 168 then 0xd80d2bda else if x == 169 then 0xaf0a1b4c else
    if x == 170 then 0x36034af6 else if x == 171 then 0x41047a60 else
    if x == 172 then 0xdf60efc3 else if x == 173 then 0xa867df55 else if x == 174 then 0x316e8eef else 0x4669be79
  }

  function Row11(x: bv32): bv32 {
    if x == 176 then 0xcb61b38c else if x == 177 then 0xbc66831a else
    if x == 178 then 0x256fd2a0 else if x == 179 then 0x5268e236 else
    if x == 180 then 0xcc0c7795 else if x == 181 then 0xbb0b4703 else
    if x == 182 then 0x220216b9 else if x == 183 then 0x5505262f else
    if x == 184 then 0xc5ba3bbe else if x == 185 then 0xb2bd0b28 else
    if x == 186 then 0x2bb45a92 else if x == 187 then 0x5cb36a04 else
    if x == 188 then 0xc2d7ffa7 else if x == 189 then 0xb5d0cf31 else if x == 190 then 0x2cd99e8b else 0x5bdeae1d
  }

  function Row12(x: bv32): bv32 {
    if x == 192 then 0x9b64c2b0 else if x == 193 then 0xec63f226 else
    if x == 194 then 0x756aa39c else if x == 195 then 0x026d930a else
    if x == 196 then 0x9c0906a9 else if x == 197 then 0xeb0e363f else
    if x == 198 then 0x72076785 else if x == 199 then 0x05005713 else
    if x == 200 then 0x95bf4a82 else if x == 201 then 0xe2b87a14 else
    if x == 202 then 0x7bb12bae else if x == 203 then 0x0cb61b38 else
    if x == 204 then 0x92d28e9b else if x == 205 then 0xe5d5be0d else if x == 206 then 0x7cdcefb7 else 0x0bdbdf21
  }

  function Row13(x: bv32): bv32 {
    if x == 208 then 0x86d3d2d4 else if x == 209 then 0xf1d4e242 else
    if x == 210 then 0x68ddb3f8 else if x == 211 then 0x1fda836e else
    if x == 212 then 0x81be16cd else if x == 213 then 0xf6b9265b else
    if x == 214 then 0x6fb077e1 else if x == 215 then 0x18b74777 else
    if x == 216 then 0x88085ae6 else if x == 217 then 0xff0f6a70 else
    if x == 218 then 0x66063bca else if x == 219 then 0x11010b5c else
    if x == 220 then 0x8f659eff else if x == 221 then 0xf862ae69 else if x == 222 then 0x616bffd3 else 0x166ccf45
  }

  function Row14(x: bv32): bv32 {
    if x == 224 then 0xa00ae278 else if x == 225 then 0xd70dd2ee else
    if x == 226 then 0x4e048354 else if x == 227 then 0x3903b3c2 else
    if x == 228 then 0xa7672661 else if x == 229 then 0xd06016f7 else
    if x == 230 then 0x4969474d else if x == 231 then 0x3e6e77db else
    if x == 232 then 0xaed16a4a else if x == 233 then 0xd9d65adc else
    if x == 234 then 0x40df0b66 else if x == 235 then 0x37d83bf0 else
    if x == 236 then 0xa9bcae53 else if x == 237 then 0xdebb9ec5 else if x == 238 then 0x47b2cf7f else 0x30b5ffe9
  }

  function Row15(x: bv32): bv32 {
    if x == 240 then 0xbdbdf21c else if x == 241 then 0xcabac28a else
    if x == 242 then 0x53b39330 else if x == 243 then 0x24b4a3a6 else
    if x == 244 then 0xbad03605 else if x == 245 then 0xcdd70693 else
    if x == 246 then 0x54de5729 else if x == 247 then 0x23d967bf else
    if x == 248 then 0xb3667a2e else if x == 249 then 0xc4614ab8 else
    if x == 250 then 0x5d681b02 else if x == 251 then 0x2a6f2b94 else
    if x == 252 then 0xb40bbe37 else if x == 253 then 0xc30c8ea1 else if x == 254 then 0x5a05df1b else 0x2d02ef8d
  }

  /** crc32tab[x], by rows of sixteen entries. */
  function Table(x: bv32): bv32 {
    if x < 128 then
      if x < 64 then
        if x < 32 then (if x < 16 then Row0(x) else Row1(x)) else (if x < 48 then Row2(x) else Row3(x))
      else
        if x < 96 then (if x < 80 then Row4(x) else Row5(x)) else (if x < 112 then Row6(x) else Row7(x))
    else
      if x < 192 then
        if x < 160 then (if x < 144 then Row8(x) else Row9(x)) else (if x < 176 then Row10(x) else Row11(x))
      else
        if x < 224 then (if x < 208 then Row12(x) else Row13(x)) else (if x < 240 then Row14(x) else Row15(x))
  }

  lemma StepBits(c: bv32)
    ensures Step(c) == (c >> 1) ^ (if c & 1 == 1 then 0xedb88320 else 0)
  {}

  lemma EightBits(x: bv32)
    ensures
      var c1 := (x >> 1) ^ (if x & 1 == 1 then 0xedb88320 else 0);
      var c2 := (c1 >> 1) ^ (if c1 & 1 == 1 then 0xedb88320 else 0);
      var c3 := (c2 >> 1) ^ (if c2 & 1 == 1 then 0xedb88320 else 0);
      var c4 := (c3 >> 1) ^ (if c3 & 1 == 1 then 0xedb88320 else 0);
      var c5 := (c4 >> 1) ^ (if c4 & 1 == 1 then 0xedb88320 else 0);
      var c6 := (c5 >> 1) ^ (if c5 & 1 == 1 then 0xedb88320 else 0);
      var c7 := (c6 >> 1) ^ (if c6 & 1 == 1 then 0xedb88320 else 0);
      var c8 := (c7 >> 1) ^ (if c7 & 1 == 1 then 0xedb88320 else 0);
      Eight(x) == c8
  {
    hide Step;
    StepBits(x);
    var c1 := (x >> 1) ^ (if x & 1 == 1 then 0xedb88320 else 0);
    StepBits(c1);
    var c2 := (c1 >> 1) ^ (if c1 & 1 == 1 then 0xedb88320 else 0);
    StepBits(c2);
    var c3 := (c2 >> 1) ^ (if c2 & 1 == 1 then 0xedb88320 else 0);
    StepBits(c3);
    var c4 := (c3 >> 1) ^ (if c3 & 1 == 1 then 0xedb88320 else 0);
    StepBits(c4);
    var c5 := (c4 >> 1) ^ (if c4 & 1 == 1 then 0xedb88320 else 0);
    StepBits(c5);
    var c6 := (c5 >> 1) ^ (if c5 & 1 == 1 then 0xedb88320 else 0);
    StepBits(c6);
    var c7 := (c6 >> 1) ^ (if c6 & 1 == 1 then 0xedb88320 else 0);
    StepBits(c7);
  }

  lemma RowIsEight0(x: bv32)
    requires 0 <= x < 16
    ensures Row0(x) == Eight(x)
  {
    hide Eight, Step;
    EightBits(x);
  }

  lemma RowIsEight1(x: bv32)
    requires 16 <= x < 32
    ensures Row1(x) == Eight(x)
  {
    hide Eight, Step;
    EightBits(x);
  }

  lemma RowIsEight2(x: bv32)
    requires 32 <= x < 48
    ensures Row2(x) == Eight(x)
  {
    hide Eight, Step;
    EightBits(x);
  }

  lemma RowIsEight3(x: bv32)
    requires 48 <= x < 64
    ensures Row3(x) == Eight(x)
  {
    hide Eight, Step;
    EightBits(x);
  }

  lemma RowIsEight4(x: bv32)
    requires 64 <= x < 80
    ensures Row4(x) == Eight(x)
  {
    hide Eight, Step;
    EightBits(x);
  }

  lemma RowIsEight5(x: bv32)
    requires 80 <= x < 96
    ensures Row5(x) == Eight(x)
  {
    hide Eight, Step;
    EightBits(x);
  }

  lemma RowIsEight6(x: bv32)
    requires 96 <= x < 112
    ensures Row6(x) == Eight(x)
  {
    hide Eight, Step;
    EightBits(x);
  }

  lemma RowIsEight7(x: bv32)
    requires 112 <= x < 128
    ensures Row7(x) == Eight(x)
  {
    hide Eight, Step;
    EightBits(x);
  }

  lemma RowIsEight8(x: bv32)
    requires 128 <= x < 144
    ensures Row8(x) == Eight(x)
  {
    hide Eight, Step;
    EightBits(x);
  }

  lemma RowIsEight9(x: bv32)
    requires 144 <= x < 160
    ensures Row9(x) == Eight(x)
  {
    hide Eight, Step;
    EightBits(x);
  }

  lemma RowIsEight10(x: bv32)
    requires 160 <= x < 176
    ensures Row10(x) == Eight(x)
  {
    hide Eight, Step;
    EightBits(x);
  }

  lemma RowIsEight11(x: bv32)
    requires 176 <= x < 192
    ensures Row11(x) == Eight(x)
  {
    hide Eight, Step;
    EightBits(x);
  }

  lemma RowIsEight12(x: bv32)
    requires 192 <= x < 208
    ensures Row12(x) == Eight(x)
  {
    hide Eight, Step;
    EightBits(x);
  }

  lemma RowIsEight13(x: bv32)
    requires 208 <= x < 224
    ensures Row13(x) == Eight(x)
  {
    hide Eight, Step;
    EightBits(x);
  }

  lemma RowIsEight14(x: bv32)
    requires 224 <= x < 240
    ensures Row14(x) == Eight(x)
  {
    hide Eight, Step;
    EightBits(x);
  }

  lemma RowIsEight15(x: bv32)
    requires 240 <= x < 256
    ensures Row15(x) == Eight(x)
  {
    hide Eight, Step;
    EightBits(x);
  }

  lemma TableIsEight(x: bv32)
    requires x < 256
    ensures Table(x) == Eight(x)
  {
    hide Eight, Row0, Row1, Row2, Row3, Row4, Row5, Row6, Row7, Row8, Row9, Row10, Row11, Row12, Row13, Row14, Row15;
    if x < 128 {
      if x < 64 {
        if x < 32 {
          if x < 16 { RowIsEight0(x); } else { RowIsEight1(x); }
        } else {
          if x < 48 { RowIsEight2(x); } else { RowIsEight3(x); }
        }
      } else {
        if x < 96 {
          if x < 80 { RowIsEight4(x); } else { RowIsEight5(x); }
        } else {
          if x < 112 { RowIsEight6(x); } else { RowIsEight7(x); }
        }
      }
    } else {
      if x < 192 {
        if x < 160 {
          if x < 144 { RowIsEight8(x); } else { RowIsEight9(x); }
        } else {
          if x < 176 { RowIsEight10(x); } else { RowIsEight11(x); }
        }
      } else {
        if x < 224 {
          if x < 208 { RowIsEight12(x); } else { RowIsEight13(x); }
        } else {
          if x < 240 { RowIsEight14(x); } else { RowIsEight15(x); }
        }
      }
    }
  }

  // ----- one table look-up does eight steps -----

  lemma StepOfXor(a: bv32, b: bv32)
    ensures Step(Xor(a, b)) == Xor(Step(a), Step(b))
  {
    hide Xor, Half, Feedback;
    HalfOfXor(a, b);
    FeedbackOfXor(a, b);
    XorMiddle(Half(a), Half(b), Feedback(a), Feedback(b));
  }

  lemma EightOfXor(a: bv32, b: bv32)
    ensures Eight(Xor(a, b)) == Xor(Eight(a), Eight(b))
  {
    hide Xor, Step;
    var a1, b1 := Step(a), Step(b);
    var a2, b2 := Step(a1), Step(b1);
    var a3, b3 := Step(a2), Step(b2);
    var a4, b4 := Step(a3), Step(b3);
    var a5, b5 := Step(a4), Step(b4);
    var a6, b6 := Step(a5), Step(b5);
    var a7, b7 := Step(a6), Step(b6);
    StepOfXor(a, b);
    StepOfXor(a1, b1);
    StepOfXor(a2, b2);
    StepOfXor(a3, b3);
    StepOfXor(a4, b4);
    StepOfXor(a5, b5);
    StepOfXor(a6, b6);
    StepOfXor(a7, b7);
  }

  function LowByte(c: bv32): bv32 { c & 0xff }
  function HighBytes(c: bv32): bv32 { c & 0xffffff00 }
  function DropByte(c: bv32): bv32 { c >> 8 }

  lemma SplitByte(c: bv32)
    ensures c == Xor(HighBytes(c), LowByte(c))
  {}

  lemma EightOfHighBytes(c: bv32)
    ensures Eight(HighBytes(c)) == DropByte(c)
  {
    hide Eight, Step;
    EightBits(HighBytes(c));
  }

  lemma IndexInTable(c: bv32, b: bv8)
    ensures Xor(Widen(b), LowByte(c)) < 256
  {}

  /** (crc >> 8) ^ crc32tab[b ^ (crc & 0xff)] */
  function Lookup(c: bv32, b: bv8): bv32 { Xor(DropByte(c), Table(Xor(Widen(b), LowByte(c)))) }

  lemma LookupIsBitwise(c: bv32, b: bv8)
    ensures Lookup(c, b) == Bitwise(c, Widen(b))
  {
    hide Xor, Eight, Table, LowByte, HighBytes, DropByte, Widen;
    var high, low, w := HighBytes(c), LowByte(c), Widen(b);
    SplitByte(c);
    XorAssociates(high, low, w);
    XorCommutes(low, w);
    EightOfXor(high, Xor(w, low));
    EightOfHighBytes(c);
    IndexInTable(c, b);
    TableIsEight(Xor(w, low));
  }

  lemma {:induction false} RegisterAppend(c: bv32, a: seq<bv8>, b: seq<bv8>)
    ensures Register(c, a + b) == Register(Register(c, a), b)
    decreases |a|
  {
    hide Bitwise;
    if |a| == 0 {
      assert a + b == b;
    } else {
      RegisterAppend(Bitwise(c, Widen(a[0])), a[1..], b);
      assert (a + b)[0] == a[0] && (a + b)[1..] == a[1..] + b;
    }
  }

  class Context {
    var crc: bv32

    /** init */
    constructor ()
      ensures crc == 0xffffffff
    {
      crc := 0xffffffff;
    }

    method Update(data: seq<bv8>)
      modifies this
      ensures crc == Register(old(crc), data)
    {
      hide Lookup, Bitwise;
      var i := 0;
      while i < |data|
        invariant 0 <= i <= |data|
        invariant Register(crc, data[i..]) == Register(old(crc), data)
      {
        LookupIsBitwise(crc, data[i]);
        assert data[i..][0] == data[i] && data[i..][1..] == data[i + 1..];
        crc := Lookup(crc, data[i]);
        i := i + 1;
      }
    }

    method Finish()
      modifies this
      ensures crc == Complement(old(crc))
    {
      crc := Complement(crc);
    }
  }

  /** GetDataCRC32: chunks of 10240 bytes give the CRC of the whole. */
  method GetDataCrc32(data: seq<bv8>) returns (crc: bv32)
    ensures crc == Crc(data)
  {
    hide Register;
    var context := new Context();
    var offset := 0;
    RegisterNone(0xffffffff);
    assert data[..0] == [];
    while offset < |data|
      invariant 0 <= offset <= |data| && fresh(context)
      invariant context.crc == Register(0xffffffff, data[..offset])
    {
      var needRead := 10240;
      if offset + needRead > |data| {
        needRead := |data| - offset;
      }
      RegisterAppend(0xffffffff, data[..offset], data[offset..offset + needRead]);
      assert data[..offset] + data[offset..offset + needRead] == data[..offset + needRead];
      context.Update(data[offset..offset + needRead]);
      offset := offset + needRead;
    }
    assert data[..offset] == data;
    context.Finish();
    crc := context.crc;
  }

  lemma RegisterNone(c: bv32)
    ensures Register(c, []) == c
  {}

  // ----- what the CRC detects -----

  lemma StepIsInjective(a: bv32, b: bv32)
    requires Step(a) == Step(b)
    ensures a == b
  {
    hide Step;
    StepBits(a);
    StepBits(b);
  }

  lemma EightIsInjective(a: bv32, b: bv32)
    requires Eight(a) == Eight(b)
    ensures a == b
  {
    hide Step;
    var a1, b1 := Step(a), Step(b);
    var a2, b2 := Step(a1), Step(b1);
    var a3, b3 := Step(a2), Step(b2);
    var a4, b4 := Step(a3), Step(b3);
    var a5, b5 := Step(a4), Step(b4);
    var a6, b6 := Step(a5), Step(b5);
    var a7, b7 := Step(a6), Step(b6);
    StepIsInjective(a7, b7);
    StepIsInjective(a6, b6);
    StepIsInjective(a5, b5);
    StepIsInjective(a4, b4);
    StepIsInjective(a3, b3);
    StepIsInjective(a2, b2);
    StepIsInjective(a1, b1);
    StepIsInjective(a, b);
  }

  lemma XorIsInjective(a: bv32, b: bv32, c: bv32)
    requires Xor(a, c) == Xor(b, c)
    ensures a == b
  {
    hide Xor;
    XorAssociates(a, c, c);
    XorAssociates(b, c, c);
    XorCancels(c);
    XorCancels(a);
    XorCancels(b);
  }

  lemma {:induction false} RegisterIsInjective(c: bv32, d: bv32, data: seq<bv8>)
    requires Register(c, data) == Register(d, data)
    ensures c == d
    decreases |data|
  {
    hide Xor, Eight;
    if |data| > 0 {
      var b := Widen(data[0]);
      RegisterIsInjective(Bitwise(c, b), Bitwise(d, b), data[1..]);
      EightIsInjective(Xor(c, b), Xor(d, b));
      XorIsInjective(c, d, b);
    }
  }

  function Up(c: bv32): bv32 { c << 8 }

  /** Up to four bytes as one word, the first byte lowest. */
  function Gather(data: seq<bv8>): bv32
    requires |data| <= 4
  {
    if |data| == 0 then 0 else Xor(Widen(data[0]), Up(Gather(data[1..])))
  }

  predicate Fits(x: bv32, n: nat) {
    if n == 0 then x == 0 else if n == 1 then x < 0x100 else if n == 2 then x < 0x10000 else n == 3 ==> x < 0x1000000
  }

  lemma FitsNext(x: bv32, b: bv8, n: nat)
    requires n <= 3 && Fits(x, n)
    ensures Fits(Xor(Widen(b), Up(x)), n + 1)
  {}

  lemma {:induction false} GatherFits(data: seq<bv8>)
    requires |data| <= 4
    ensures Fits(Gather(data), |data|)
  {
    hide Xor, Up, Widen;
    if |data| > 0 {
      GatherFits(data[1..]);
      hide Fits;
      FitsNext(Gather(data[1..]), data[0], |data| - 1);
    }
  }

  lemma ThreeBytesUp(x: bv32, n: nat)
    requires n <= 3 && Fits(x, n)
    ensures Eight(Up(x)) == x
  {
    hide Eight, Step;
    EightBits(Up(x));
  }

  lemma HeadAndTail(b: bv8, x: bv32, d: bv8, y: bv32, n: nat)
    requires n <= 3 && Fits(x, n) && Fits(y, n)
    requires Xor(Widen(b), Up(x)) == Xor(Widen(d), Up(y))
    ensures b == d && x == y
  {}

  lemma {:induction false} GatherIsInjective(u: seq<bv8>, v: seq<bv8>)
    requires |u| == |v| <= 4 && Gather(u) == Gather(v)
    ensures u == v
  {
    hide Xor, Up, Widen, Fits;
    if |u| > 0 {
      GatherFits(u[1..]);
      GatherFits(v[1..]);
      HeadAndTail(u[0], Gather(u[1..]), v[0], Gather(v[1..]), |u| - 1);
      GatherIsInjective(u[1..], v[1..]);
      assert u == [u[0]] + u[1..] && v == [v[0]] + v[1..];
    }
  }

  function EightTimes(n: nat, c: bv32): bv32 {
    if n == 0 then c else EightTimes(n - 1, Eight(c))
  }

  /** Up to four bytes enter the register as one word. */
  lemma {:induction false} RegisterOfGather(c: bv32, data: seq<bv8>)
    requires |data| <= 4
    ensures Register(c, data) == EightTimes(|data|, Xor(c, Gather(data)))
    decreases |data|
  {
    hide Xor, Eight, Up, Widen, Fits;
    if |data| == 0 {
      XorCancels(c);
    } else {
      var w, rest := Widen(data[0]), Gather(data[1..]);
      RegisterOfGather(Eight(Xor(c, w)), data[1..]);
      GatherFits(data[1..]);
      ThreeBytesUp(rest, |data| - 1);
      EightOfXor(Xor(c, w), Up(rest));
      XorAssociates(c, w, Up(rest));
    }
  }

  lemma {:induction false} EightTimesIsInjective(n: nat, c: bv32, d: bv32)
    requires EightTimes(n, c) == EightTimes(n, d)
    ensures c == d
    decreases n
  {
    hide Eight;
    if n > 0 {
      EightTimesIsInjective(n - 1, Eight(c), Eight(d));
      EightIsInjective(c, d);
    }
  }

  lemma ComplementIsInjective(a: bv32, b: bv32)
    requires Complement(a) == Complement(b)
    ensures a == b
  {
    assert Complement(Complement(a)) == a && Complement(Complement(b)) == b;
  }

  lemma SameRegister(a: seq<bv8>, b: seq<bv8>)
    requires Crc(a) == Crc(b)
    ensures Register(0xffffffff, a) == Register(0xffffffff, b)
  {
    hide Complement, Register;
    ComplementIsInjective(Register(0xffffffff, a), Register(0xffffffff, b));
  }

  lemma BurstChangesRegister(c: bv32, u: seq<bv8>, v: seq<bv8>)
    requires |u| == |v| <= 4 && Register(c, u) == Register(c, v)
    ensures u == v
  {
    hide Register, Xor, Gather, EightTimes;
    RegisterOfGather(c, u);
    RegisterOfGather(c, v);
    EightTimesIsInjective(|u|, Xor(c, Gather(u)), Xor(c, Gather(v)));
    XorCommutes(c, Gather(u));
    XorCommutes(c, Gather(v));
    XorIsInjective(Gather(u), Gather(v), c);
    GatherIsInjective(u, v);
  }

  /** Two messages that differ only inside four consecutive bytes have different CRCs. */
  lemma BurstIsDetected(before: seq<bv8>, u: seq<bv8>, v: seq<bv8>, after: seq<bv8>)
    requires |u| == |v| <= 4 && u != v
    ensures Crc(before + u + after) != Crc(before + v + after)
  {
    hide Register, Crc;
    if Crc(before + u + after) == Crc(before + v + after) {
      SameRegister(before + u + after, before + v + after);
      SplitBurst(0xffffffff, before, u, after);
      SplitBurst(0xffffffff, before, v, after);
      var c := Register(0xffffffff, before);
      RegisterIsInjective(Register(c, u), Register(c, v), after);
      BurstChangesRegister(c, u, v);
      assert false;
    }
  }

  lemma SplitBurst(start: bv32, before: seq<bv8>, u: seq<bv8>, after: seq<bv8>)
    ensures Register(start, before + u + after) == Register(Register(Register(start, before), u), after)
  {
    hide Register;
    RegisterAppend(start, before + u, after);
    RegisterAppend(start, before, u);
  }
}
