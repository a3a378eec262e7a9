/** Teletext level 1 G0 character sets: a fixed table of national
    substitutions, looked up by id, with a fallback to English and to the
    code itself. Kotlin strings are sequences of UTF-16 code units; every
    substitution in the table is in the Basic Multilingual Plane, so each of
    its characters is one code unit. */
module Charsets {
  import opened Pages

  /** One G0 set: its id, display name and region. The codes it replaces
      are given by Substitution(id, _). */
  datatype Charset = Charset(id: int, name: string, region: string)

  /** The fourteen sets, in the order the editor offers them. */
  const Table: seq<Charset> := [
    Charset(0, "English", "United Kingdom"),
    Charset(1, "German", "Germany"),
    Charset(2, "Swedish/Finnish", "Sweden/Finland"),
    Charset(3, "Italian", "Italy"),
    Charset(4, "French", "France"),
    Charset(5, "Portuguese/Spanish", "Portugal/Spain"),
    Charset(6, "Czech/Slovak", "Czech Republic/Slovakia"),
    Charset(7, "Romanian", "Romania"),
    Charset(8, "Serbian/Croatian/Slovenian", "Serbia/Croatia/Slovenia"),
    Charset(9, "Turkish", "Turkey"),
    Charset(10, "Cyrillic (Russian/Bulgarian)", "Russia/Bulgaria"),
    Charset(11, "Greek", "Greece"),
    Charset(12, "Arabic", "Arabic Countries"),
    Charset(13, "Hebrew", "Israel")
  ]

  /** The substitutions of set 0, English. */
  function EnglishSubstitution(code: int): (r: Option<string>)
    ensures r.Some? ==> |r.value| >= 1
    ensures 'A' as int <= code <= 'Z' as int ==> r.None?
  {
    match code
      case 0x23 => Some("£") case 0x24 => Some("$") case 0x40 => Some("@")
      case 0x5B => Some("←") case 0x5C => Some("½") case 0x5D => Some("→")
      case 0x5E => Some("↑") case 0x5F => Some("#") case 0x60 => Some("―")
      case 0x7B => Some("¼") case 0x7C => Some("‖") case 0x7D => Some("¾")
      case 0x7E => Some("÷")
      case _ => None
  }

  /** The substitutions of set 1, German. */
  function GermanSubstitution(code: int): (r: Option<string>)
    ensures r.Some? ==> |r.value| >= 1
    ensures 'A' as int <= code <= 'Z' as int ==> r.None?
  {
    match code
      case 0x23 => Some("#") case 0x24 => Some("$") case 0x40 => Some("@")
      case 0x5B => Some("Ä") case 0x5C => Some("Ö") case 0x5D => Some("Ü")
      case 0x5E => Some("^") case 0x5F => Some("_") case 0x60 => Some("°")
      case 0x7B => Some("ä") case 0x7C => Some("ö") case 0x7D => Some("ü")
      case 0x7E => Some("ß")
      case _ => None
  }

  /** The substitutions of set 2, Swedish/Finnish. */
  function SwedishFinnishSubstitution(code: int): (r: Option<string>)
    ensures r.Some? ==> |r.value| >= 1
    ensures 'A' as int <= code <= 'Z' as int ==> r.None?
  {
    match code
      case 0x23 => Some("#") case 0x24 => Some("¤") case 0x40 => Some("É")
      case 0x5B => Some("Ä") case 0x5C => Some("Ö") case 0x5D => Some("Å")
      case 0x5E => Some("Ü") case 0x5F => Some("_") case 0x60 => Some("é")
      case 0x7B => Some("ä") case 0x7C => Some("ö") case 0x7D => Some("å")
      case 0x7E => Some("ü")
      case _ => None
  }

  /** The substitutions of set 3, Italian. */
  function ItalianSubstitution(code: int): (r: Option<string>)
    ensures r.Some? ==> |r.value| >= 1
    ensures 'A' as int <= code <= 'Z' as int ==> r.None?
  {
    match code
      case 0x23 => Some("£") case 0x24 => Some("$") case 0x40 => Some("é")
      case 0x5B => Some("°") case 0x5C => Some("ç") case 0x5D => Some("→")
      case 0x5E => Some("↑") case 0x5F => Some("#") case 0x60 => Some("ù")
      case 0x7B => Some("à") case 0x7C => Some("ò") case 0x7D => Some("è")
      case 0x7E => Some("ì")
      case _ => None
  }

  /** The substitutions of set 4, French. */
  function FrenchSubstitution(code: int): (r: Option<string>)
    ensures r.Some? ==> |r.value| >= 1
    ensures 'A' as int <= code <= 'Z' as int ==> r.None?
  {
    match code
      case 0x23 => Some("é") case 0x24 => Some("ï") case 0x40 => Some("à")
      case 0x5B => Some("ë") case 0x5C => Some("ê") case 0x5D => Some("ù")
      case 0x5E => Some("î") case 0x5F => Some("#") case 0x60 => Some("è")
      case 0x7B => Some("â") case 0x7C => Some("ô") case 0x7D => Some("û")
      case 0x7E => Some("ç")
      case _ => None
  }

  /** The substitutions of set 5, Portuguese/Spanish. */
  function PortugueseSpanishSubstitution(code: int): (r: Option<string>)
    ensures r.Some? ==> |r.value| >= 1
    ensures 'A' as int <= code <= 'Z' as int ==> r.None?
  {
    match code
      case 0x23 => Some("ç") case 0x24 => Some("$") case 0x40 => Some("¡")
      case 0x5B => Some("á") case 0x5C => Some("é") case 0x5D => Some("í")
      case 0x5E => Some("ó") case 0x5F => Some("ú") case 0x60 => Some("¿")
      case 0x7B => Some("ü") case 0x7C => Some("ñ") case 0x7D => Some("è")
      case 0x7E => Some("à")
      case _ => None
  }

  /** The substitutions of set 6, Czech/Slovak. */
  function CzechSlovakSubstitution(code: int): (r: Option<string>)
    ensures r.Some? ==> |r.value| >= 1
    ensures 'A' as int <= code <= 'Z' as int ==> r.None?
  {
    match code
      case 0x23 => Some("#") case 0x24 => Some("ů") case 0x40 => Some("č")
      case 0x5B => Some("ť") case 0x5C => Some("ž") case 0x5D => Some("ý")
      case 0x5E => Some("í") case 0x5F => Some("ř") case 0x60 => Some("é")
      case 0x7B => Some("á") case 0x7C => Some("ě") case 0x7D => Some("ú")
      case 0x7E => Some("š")
      case _ => None
  }

  /** The substitutions of set 7, Romanian. */
  function RomanianSubstitution(code: int): (r: Option<string>)
    ensures r.Some? ==> |r.value| >= 1
    ensures 'A' as int <= code <= 'Z' as int ==> r.None?
  {
    match code
      case 0x23 => Some("#") case 0x24 => Some("¤") case 0x40 => Some("Ţ")
      case 0x5B => Some("Â") case 0x5C => Some("Ş") case 0x5D => Some("Ă")
      case 0x5E => Some("Î") case 0x5F => Some("ı") case 0x60 => Some("ţ")
      case 0x7B => Some("â") case 0x7C => Some("ş") case 0x7D => Some("ă")
      case 0x7E => Some("î")
      case _ => None
  }

  /** The substitutions of set 8, Serbian/Croatian/Slovenian. */
  function SerbianCroatianSlovenianSubstitution(code: int): (r: Option<string>)
    ensures r.Some? ==> |r.value| >= 1
    ensures 'A' as int <= code <= 'Z' as int ==> r.None?
  {
    match code
      case 0x23 => Some("#") case 0x24 => Some("Ë") case 0x40 => Some("Č")
      case 0x5B => Some("Ć") case 0x5C => Some("Ž") case 0x5D => Some("Đ")
      case 0x5E => Some("Š") case 0x5F => Some("Ł") case 0x60 => Some("ë")
      case 0x7B => Some("ć") case 0x7C => Some("ž") case 0x7D => Some("đ")
      case 0x7E => Some("š")
      case _ => None
  }

  /** The substitutions of set 9, Turkish. */
  function TurkishSubstitution(code: int): (r: Option<string>)
    ensures r.Some? ==> |r.value| >= 1
    ensures 'A' as int <= code <= 'Z' as int ==> r.None?
  {
    match code
      case 0x23 => Some("T") case 0x24 => Some("¤") case 0x40 => Some("É")
      case 0x5B => Some("Ğ") case 0x5C => Some("İ") case 0x5D => Some("Ş")
      case 0x5E => Some("Ö") case 0x5F => Some("Ç") case 0x60 => Some("Ü")
      case 0x7B => Some("ğ") case 0x7C => Some("ı") case 0x7D => Some("ş")
      case 0x7E => Some("ö")
      case _ => None
  }

  /** The substitutions of set 10, Cyrillic (Russian/Bulgarian). */
  function CyrillicSubstitution(code: int): (r: Option<string>)
    ensures r.Some? ==> |r.value| >= 1
  {
    match code
      case 0x26 => Some("ы") case 0x40 => Some("Ю") case 0x41 => Some("А")
      case 0x42 => Some("Б") case 0x43 => Some("Ц") case 0x44 => Some("Д")
      case 0x45 => Some("Е") case 0x46 => Some("Ф") case 0x47 => Some("Г")
      case 0x48 => Some("Х") case 0x49 => Some("И") case 0x4A => Some("Й")
      case 0x4B => Some("К") case 0x4C => Some("Л") case 0x4D => Some("М")
      case 0x4E => Some("Н") case 0x4F => Some("О") case 0x50 => Some("П")
      case 0x51 => Some("Я") case 0x52 => Some("Р") case 0x53 => Some("С")
      case 0x54 => Some("Т") case 0x55 => Some("У") case 0x56 => Some("Ж")
      case 0x57 => Some("В") case 0x58 => Some("Ь") case 0x59 => Some("Ъ")
      case 0x5A => Some("З") case 0x5B => Some("Ш") case 0x5C => Some("Э")
      case 0x5D => Some("Щ") case 0x5E => Some("Ч") case 0x5F => Some("Ы")
      case 0x60 => Some("ю") case 0x61 => Some("а") case 0x62 => Some("б")
      case 0x63 => Some("ц") case 0x64 => Some("д") case 0x65 => Some("е")
      case 0x66 => Some("ф") case 0x67 => Some("г") case 0x68 => Some("х")
      case 0x69 => Some("и") case 0x6A => Some("й") case 0x6B => Some("к")
      case 0x6C => Some("л") case 0x6D => Some("м") case 0x6E => Some("н")
      case 0x6F => Some("о") case 0x70 => Some("п") case 0x71 => Some("я")
      case 0x72 => Some("р") case 0x73 => Some("с") case 0x74 => Some("т")
      case 0x75 => Some("у") case 0x76 => Some("ж") case 0x77 => Some("в")
      case 0x78 => Some("ь") case 0x79 => Some("ъ") case 0x7A => Some("з")
      case 0x7B => Some("ш") case 0x7C => Some("э") case 0x7D => Some("щ")
      case 0x7E => Some("ч")
      case _ => None
  }

  /** The substitutions of set 11, Greek. */
  function GreekSubstitution(code: int): (r: Option<string>)
    ensures r.Some? ==> |r.value| >= 1
  {
    match code
      case 0x20 => Some(" ") case 0x23 => Some("#") case 0x24 => Some("$")
      case 0x40 => Some("Ώ") case 0x41 => Some("Α") case 0x42 => Some("Β")
      case 0x43 => Some("Γ") case 0x44 => Some("Δ") case 0x45 => Some("Ε")
      case 0x46 => Some("Ζ") case 0x47 => Some("Η") case 0x48 => Some("Θ")
      case 0x49 => Some("Ι") case 0x4A => Some("Κ") case 0x4B => Some("Λ")
      case 0x4C => Some("Μ") case 0x4D => Some("Ν") case 0x4E => Some("Ξ")
      case 0x4F => Some("Ο") case 0x50 => Some("Π") case 0x51 => Some("Ρ")
      case 0x53 => Some("Σ") case 0x54 => Some("Τ") case 0x55 => Some("Υ")
      case 0x56 => Some("Φ") case 0x57 => Some("Χ") case 0x58 => Some("Ψ")
      case 0x59 => Some("Ω") case 0x60 => Some("ώ") case 0x61 => Some("α")
      case 0x62 => Some("β") case 0x63 => Some("γ") case 0x64 => Some("δ")
      case 0x65 => Some("ε") case 0x66 => Some("ζ") case 0x67 => Some("η")
      case 0x68 => Some("θ") case 0x69 => Some("ι") case 0x6A => Some("κ")
      case 0x6B => Some("λ") case 0x6C => Some("μ") case 0x6D => Some("ν")
      case 0x6E => Some("ξ") case 0x6F => Some("ο") case 0x70 => Some("π")
      case 0x71 => Some("ρ") case 0x72 => Some("ς") case 0x73 => Some("σ")
      case 0x74 => Some("τ") case 0x75 => Some("υ") case 0x76 => Some("φ")
      case 0x77 => Some("χ") case 0x78 => Some("ψ") case 0x79 => Some("ω")
      case _ => None
  }

  /** The substitutions of set 12, Arabic. */
  function ArabicSubstitution(code: int): (r: Option<string>)
    ensures r.Some? ==> |r.value| >= 1
  {
    match code
      case 0x20 => Some(" ") case 0x23 => Some("#") case 0x24 => Some("ريال")
      case 0x40 => Some("ـ") case 0x41 => Some("ا") case 0x42 => Some("ب")
      case 0x43 => Some("ت") case 0x44 => Some("ث") case 0x45 => Some("ج")
      case 0x46 => Some("ح") case 0x47 => Some("خ") case 0x48 => Some("د")
      case 0x49 => Some("ذ") case 0x4A => Some("ر") case 0x4B => Some("ز")
      case 0x4C => Some("س") case 0x4D => Some("ش") case 0x4E => Some("ص")
      case 0x4F => Some("ض") case 0x50 => Some("ط") case 0x51 => Some("ظ")
      case 0x52 => Some("ع") case 0x53 => Some("غ") case 0x60 => Some("ـ")
      case 0x61 => Some("ف") case 0x62 => Some("ق") case 0x63 => Some("ك")
      case 0x64 => Some("ل") case 0x65 => Some("م") case 0x66 => Some("ن")
      case 0x67 => Some("ه") case 0x68 => Some("و") case 0x69 => Some("ى")
      case 0x6A => Some("ي")
      case _ => None
  }

  /** The substitutions of set 13, Hebrew. */
  function HebrewSubstitution(code: int): (r: Option<string>)
    ensures r.Some? ==> |r.value| >= 1
  {
    match code
      case 0x20 => Some(" ") case 0x23 => Some("£") case 0x40 => Some("ח")
      case 0x41 => Some("א") case 0x42 => Some("ב") case 0x43 => Some("ג")
      case 0x44 => Some("ד") case 0x45 => Some("ה") case 0x46 => Some("ו")
      case 0x47 => Some("ז") case 0x48 => Some("ח") case 0x49 => Some("ט")
      case 0x4A => Some("י") case 0x4B => Some("ך") case 0x4C => Some("כ")
      case 0x4D => Some("ל") case 0x4E => Some("ם") case 0x4F => Some("מ")
      case 0x50 => Some("ן") case 0x51 => Some("נ") case 0x52 => Some("ס")
      case 0x53 => Some("ע") case 0x54 => Some("ף") case 0x55 => Some("פ")
      case 0x56 => Some("ץ") case 0x57 => Some("צ") case 0x58 => Some("ק")
      case 0x59 => Some("ר") case 0x5A => Some("ש") case 0x5B => Some("ת")
      case _ => None
  }

  /** The substitution table of the set with the given id. */
  function Substitution(id: int, code: int): (r: Option<string>)
    ensures r.Some? ==> |r.value| >= 1
    ensures 0 <= id < 10 && 'A' as int <= code <= 'Z' as int ==> r.None?
  {
    match id
    case 0 => EnglishSubstitution(code)
    case 1 => GermanSubstitution(code)
    case 2 => SwedishFinnishSubstitution(code)
    case 3 => ItalianSubstitution(code)
    case 4 => FrenchSubstitution(code)
    case 5 => PortugueseSpanishSubstitution(code)
    case 6 => CzechSlovakSubstitution(code)
    case 7 => RomanianSubstitution(code)
    case 8 => SerbianCroatianSlovenianSubstitution(code)
    case 9 => TurkishSubstitution(code)
    case 10 => CyrillicSubstitution(code)
    case 11 => GreekSubstitution(code)
    case 12 => ArabicSubstitution(code)
    case 13 => HebrewSubstitution(code)
    case _ => None
  }

  /** Every set carries its own position in the table as its id. */
  lemma IdsArePositions()
    ensures |Table| == 14
    ensures forall i :: 0 <= i < |Table| ==> Table[i].id == i
  {
  }

  /** The set carrying the given id; when no set carries it, the first set,
      English. */
  function GetCharset(id: int): (c: Charset)
    ensures c in Table
    ensures (exists i :: 0 <= i < |Table| && Table[i].id == id) ==> c.id == id
    ensures (forall i :: 0 <= i < |Table| ==> Table[i].id != id) ==> c == Table[0]
  {
    IdsArePositions();
    if 0 <= id < |Table| then Table[id] else Table[0]
  }

  /** A string of the table as the UTF-16 code units a Kotlin String holds:
      every character in the table is in the Basic Multilingual Plane, where
      a character is one code unit. */
  function CodeUnits(s: string): (r: seq<int>)
    ensures |r| == |s|
    ensures forall k :: 0 <= k < |s| ==> r[k] == s[k] as int
  {
    seq(|s|, k requires 0 <= k < |s| => s[k] as int)
  }

  /** How code charCode is shown in set charsetId: its substitution there,
      else the code itself as one UTF-16 unit (Int.toChar keeps the low 16
      bits). */
  function MapChar(charCode: int, charsetId: int): (r: seq<int>)
  {
    var charset := GetCharset(charsetId);
    match Substitution(charset.id, charCode)
    case Some(text) => CodeUnits(text)
    case None => [charCode % 0x10000]
  }

  /** The list the charset picker shows: "name (region)" per set, in table
      order. */
  function GetCharsetNames(): (r: seq<string>)
    ensures |r| == |Table|
    ensures forall i :: 0 <= i < |r| ==> r[i] == Table[i].name + " (" + Table[i].region + ")"
  {
    seq(|Table|, i requires 0 <= i < |Table| => Table[i].name + " (" + Table[i].region + ")")
  }

  /** A code with a substitution in a known set shows as that substitution;
      a code without one shows as itself. */
  lemma MapCharInKnownSet(charCode: int, charsetId: int)
    requires 0 <= charsetId < |Table|
    ensures Substitution(charsetId, charCode).Some? ==>
              MapChar(charCode, charsetId) == CodeUnits(Substitution(charsetId, charCode).value)
    ensures Substitution(charsetId, charCode).None? ==>
              MapChar(charCode, charsetId) == [charCode % 0x10000]
  {
  }

  /** An unknown set id shows every code as English does. */
  lemma UnknownSetIsEnglish(charCode: int, charsetId: int)
    requires !(0 <= charsetId < |Table|)
    ensures MapChar(charCode, charsetId) == MapChar(charCode, 0)
  {
  }

  /** Greek has no substitution for 0x52, so it shows as 'R'. */
  lemma GreekKeepsR()
    ensures MapChar(0x52, 11) == [0x52]
  {
    assert Substitution(11, 0x52) == None;
    MapCharInKnownSet(0x52, 11);
  }

  /** Arabic 0x24 is a four-letter word. */
  lemma ArabicRial()
    ensures MapChar(0x24, 12) == CodeUnits("ريال")
    ensures |MapChar(0x24, 12)| == 4
  {
  }

  /** The ten Latin sets leave the capital letters alone. */
  lemma LatinCapitalsUnchanged(charCode: int, charsetId: int)
    requires 0 <= charsetId < 10 && 'A' as int <= charCode <= 'Z' as int
    ensures MapChar(charCode, charsetId) == [charCode]
  {
  }

  /** Every code shows as at least one character. */
  lemma MapCharNonEmpty(charCode: int, charsetId: int)
    ensures |MapChar(charCode, charsetId)| >= 1
  {
  }

  /** Picker position id names the set that id selects for display. */
  lemma PickerShowsSelectedSet(id: int)
    requires 0 <= id < |GetCharsetNames()|
    ensures GetCharsetNames()[id] == GetCharset(id).name + " (" + GetCharset(id).region + ")"
  {
  }
}
