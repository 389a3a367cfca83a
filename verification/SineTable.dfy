/** The 64 constants of MD5 as section 3.4 of RFC 1321 defines them: by the sine of whole numbers, in radians. */
module SineTable {
  import opened Md5

  const SCALE: int := 1000000000000000000

  /** sin(1) and cos(1) with 18 decimals. */
  const SIN_1: int := 841470984807896506
  const COS_1: int := 540302305868139717

  /** The power series up to x to the 19th and x to the 20th, over 19! and 20!, whose errors are below 1/21! and 1/22!. */
  lemma UnitAngle()
    ensures var f := 121645100408832000;
      SIN_1 * f <= SCALE * (f - f / 6 + f / 120 - f / 5040 + f / 362880 - f / 39916800 + f / 6227020800
                            - f / 1307674368000 + f / 355687428096000 - 1) < (SIN_1 + 1) * f
    ensures var f := 2432902008176640000;
      COS_1 * f <= SCALE * (f - f / 2 + f / 24 - f / 720 + f / 40320 - f / 3628800 + f / 479001600 - f / 87178291200
                            + f / 20922789888000 - f / 6402373705728000 + 1) < (COS_1 + 1) * f
  {
  }

  /** One radian further, by the addition theorems. */
  function Turned(s: int, c: int): (int, int) {
    ((s * COS_1 + c * SIN_1) / SCALE, (c * COS_1 - s * SIN_1) / SCALE)
  }

  /** sin(i) and cos(i). */
  function Angle(i: nat): (int, int) {
    if i == 0 then (0, SCALE) else var (s, c) := Angle(i - 1); Turned(s, c)
  }

  /** The integer part of 2 to the 32nd times the absolute value. */
  function Scaled(s: int): int {
    (if s < 0 then -s else s) * 0x1_0000_0000 / SCALE
  }

  /** The next angle, and the entry of the table for it, from their values. */
  lemma {:induction false} Next(i: nat, s: int, c: int, sine: int, cosine: int, entry: int)
    requires Angle(i) == (s, c)
    requires 0 <= s * 540302305868139717 + c * 841470984807896506 - sine * 1000000000000000000 < 1000000000000000000
    requires 0 <= c * 540302305868139717 - s * 841470984807896506 - cosine * 1000000000000000000 < 1000000000000000000
    requires 0 <= (if sine < 0 then -sine else sine) * 0x1_0000_0000 - entry * 1000000000000000000 < 1000000000000000000
    ensures Angle(i + 1) == (sine, cosine) && Scaled(Angle(i + 1).0) == entry
  {
  }

  lemma {:induction false} FirstRound(i: nat)
    requires 0 < i <= 16 && Angle(0) == (0, 1000000000000000000)
    ensures T(i) as int == Scaled(Angle(i).0) && Angle(16) == (-287903316665065294, -957659480323384631)
  {
    hide Angle, Scaled;
    Next(0, 0, 1000000000000000000, 841470984807896506, 540302305868139717, 0xD76AA478);
    Next(1, 841470984807896506, 540302305868139717, 909297426825681694, -416146836547142387, 0xE8C7B756);
    Next(2, 909297426825681694, -416146836547142387, 141120008059867221, -989992496600445456, 0x242070DB);
    Next(3, 141120008059867221, -989992496600445456, -756802495307928251, -653643620863611913, 0xC1BDCEEE);
    Next(4, -756802495307928251, -653643620863611913, -958924274663138467, 283662185463226264, 0xF57C0FAF);
    Next(5, -958924274663138467, 283662185463226264, -279415498198925872, 960170286650366017, 0x4787C62A);
    Next(6, -279415498198925872, 960170286650366017, 656986598718789087, 753902254343304634, 0xA8304613);
    Next(7, 656986598718789087, 753902254343304634, 989358246623381771, -145500033808613526, 0xFD469501);
    Next(8, 989358246623381771, -145500033808613526, 412118485241756565, -911130261884676983, 0x698098D8);
    Next(9, 412118485241756565, -911130261884676983, -544021110889369812, -839071529076452445, 0x8B44F7AF);
    Next(10, -544021110889369812, -839071529076452445, -999990206550703450, 4425697988050788, 0xFFFF5BB1);
    Next(11, -999990206550703450, 4425697988050788, -536572918000434966, 843853958732492099, 0x895CD7BE);
    Next(12, -536572918000434966, 843853958732492099, 420167036826640919, 907446781450196205, 0x6B901122);
    Next(13, 420167036826640919, 907446781450196205, 990607355694870298, 136737218207833591, 0xFD987193);
    Next(14, 990607355694870298, 136737218207833591, 650287840157116857, -759687912858821267, 0xA679438E);
    Next(15, 650287840157116857, -759687912858821267, -287903316665065294, -957659480323384631, 0x49B40821);
  }

  lemma {:induction false} SecondRound(i: nat)
    requires 16 < i <= 32 && Angle(16) == (-287903316665065294, -957659480323384631)
    ensures T(i) as int == Scaled(Angle(i).0) && Angle(32) == (551426681241690541, 834223360506510250)
  {
    hide Angle, Scaled;
    Next(16, -287903316665065294, -957659480323384631, -961397491879556847, -275163338051596917, 0xF61E2562);
    Next(17, -961397491879556847, -275163338051596917, -750987246771676094, 660316708244080138, 0xC040B340);
    Next(18, -750987246771676094, 660316708244080138, 149877209662952329, 988704618186669240, 0x265E5A51);
    Next(19, 149877209662952329, 988704618186669240, 912945250727627642, 408082061813391979, 0xE9B6C7AA);
    Next(20, 912945250727627642, 408082061813391979, 836655638536056018, -547729260224268415, 0xD62F105D);
    Next(21, 836655638536056018, -547729260224268415, -8851309290403879, -999960826394637111, 0x02441453);
    Next(22, -8851309290403879, -999960826394637111, -846220404175170624, -532833020333397544, 0xD8A1E681);
    Next(23, -846220404175170624, -532833020333397544, -905578362006623829, 424179007336996972, 0xE7D3FBC8);
    Next(24, -905578362006623829, 424179007336996972, -132351750097773024, 991202811863473581, 0x21E1CDE6);
    Next(25, -132351750097773024, 991202811863473581, 762558450479602725, 646919322328640328, 0xC33707D6);
    Next(26, 762558450479602725, 646919322328640328, 956375928404502993, -292138808733836191, 0xF4D50D87);
    Next(27, 956375928404502993, -292138808733836191, 270905788307869010, -962605866313566583, 0x455A14ED);
    Next(28, 270905788307869010, -962605866313566583, -663633884212967492, -748057529689000333, 0xA9E3E905);
    Next(29, -663633884212967492, -748057529689000333, -988031624092861768, 154251449887584052, 0xFCEFA3F8);
    Next(30, -988031624092861768, 154251449887584052, -404037645323064993, 914742357804531260, 0x676F02D9);
    Next(31, -404037645323064993, 914742357804531260, 551426681241690541, 834223360506510250, 0x8D2A4C8A);
  }

  lemma {:induction false} ThirdRound(i: nat)
    requires 32 < i <= 48 && Angle(32) == (551426681241690541, 834223360506510250)
    ensures T(i) as int == Scaled(Angle(i).0) && Angle(48) == (-768254661323666774, -640144339469199706)
  {
    hide Angle, Scaled;
    Next(32, 551426681241690541, 834223360506510250, 999911860107267121, -13276747223059483, 0xFFFA3942);
    Next(33, 999911860107267121, -13276747223059483, 529082686120023803, -848570274784605168, 0x8771F681);
    Next(34, 529082686120023803, -848570274784605168, -428182669496150999, -903692205091506735, 0x6D9D6122);
    Next(35, -428182669496150999, -903692205091506735, -991778853443115713, -127963689627404673, 0xFDE5380C);
    Next(36, -991778853443115713, -127963689627404673, -643538133356999441, 765414051945343340, 0xA4BEEA44);
    Next(37, -643538133356999441, 765414051945343340, 296368578709385313, 955073644047294831, 0x4BDECFA9);
    Next(38, 296368578709385313, 955073644047294831, 963795386284087727, 266642932359937240, 0xF6BB4B60);
    Next(39, 963795386284087727, 266642932359937240, 745113160479348762, -666938061652261828, 0xBEBFBC70);
    Next(40, 745113160479348762, -666938061652261828, -158622668804708987, -987339277523826428, 0x289B7EC6);
    Next(41, -158622668804708987, -987339277523826428, -916521547915633760, -399985314988351278, 0xEAA127FA);
    Next(42, -916521547915633760, -399985314988351278, -831774742628598261, 555113301520625663, 0xD4EF3085);
    Next(43, -831774742628598261, 555113301520625663, 17701925105413580, 999843308647691188, 0x04881D05);
    Next(44, 17701925105413580, 999843308647691188, 850903524534118398, 525321988817729676, 0xD9D4D039);
    Next(45, 850903524534118398, 525321988817729676, 901788347648809152, -432177944884778283, 0xE6DB99E5);
    Next(46, 901788347648809152, -432177944884778283, 123573122745223996, -992335469150928684, 0x1FA27CF8);
    Next(47, 123573122745223996, -992335469150928684, -768254661323666774, -640144339469199706, 0xC4AC5665);
  }

  lemma {:induction false} FourthRound(i: nat)
    requires 48 < i <= 64 && Angle(48) == (-768254661323666774, -640144339469199706)
    ensures T(i) as int == Scaled(Angle(i).0) && Angle(64) == (920026038196790641, 391857230429549983)
  {
    hide Angle, Scaled;
    Next(48, -768254661323666774, -640144339469199706, -953752652759471783, 300592543743637076, 0xF4292244);
    Next(49, -953752652759471783, 300592543743637076, -262374853703928774, 964966028492113239, 0x432AFF97);
    Next(50, -262374853703928774, 964966028492113239, 670229175843374710, 742154196813782509, 0xAB9423A7);
    Next(51, 670229175843374710, 742154196813782509, 986627592040485256, -162990780795705477, 0xFC93A039);
    Next(52, 986627592040485256, -162990780795705477, 395925150181834162, -918282786212118855, 0x655B59C3);
    Next(53, 395925150181834162, -918282786212118855, -558789048851616226, -829309832863150112, 0x8F0CCC92);
    Next(54, -558789048851616226, -829309832863150112, -999755173358619796, 22126756261955737, 0xFFEFF47D);
    Next(55, -999755173358619796, 22126756261955737, -521551002086911856, 853220107722584080, 0x85845DD1);
    Next(56, -521551002086911856, 853220107722584080, 436164755247824943, 899866826969193747, 0x6FA87E4F);
    Next(57, 436164755247824943, 899866826969193747, 992872648084537075, 119180135448819277, 0xFE2CE6E0);
    Next(58, 992872648084537075, 119180135448819277, 636738007139137849, -771080222975845198, 0xA3014314);
    Next(59, 636738007139137849, -771080222975845198, -304810621102216697, -952412980415156249, 0x4E0811A1);
    Next(60, -304810621102216697, -952412980415156249, -966117770008392905, -258101635938267430, 0xF7537E82);
    Next(61, -966117770008392905, -258101635938267430, -739180696649222831, 673507162323586225, 0xBD3AF235);
    Next(62, -739180696649222831, 673507162323586225, 167355700302806917, 985896581582549651, 0x2AD7D2BB);
    Next(63, 167355700302806917, 985896581582549651, 920026038196790641, 391857230429549983, 0xEB86D391);
  }

  /** Element i of the table T is the integer part of 2 to the 32nd times the absolute value of sin(i). */
  lemma {:induction false} TableIsSine(i: nat)
    requires 1 <= i <= 64
    ensures T(i) as int == Scaled(Angle(i).0)
  {
    hide T, Scaled;
    FirstRound(if i <= 16 then i else 1);
    SecondRound(if 16 < i <= 32 then i else 17);
    ThirdRound(if 32 < i <= 48 then i else 33);
    FourthRound(if 48 < i then i else 49);
  }
}
