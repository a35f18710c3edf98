/** Which key of a THX header or section gives which field, told by the keys as they
    are written. */
module ThxKeys {
  import opened Frames
  import opened Images
  import Text = ThxText
  import opened Thx

  /** The bytes of an ASCII text. */
  function Ascii(s: string): (r: seq<Byte>)
    requires forall k :: 0 <= k < |s| ==> s[k] < '\U{80}'
    ensures |r| == |s| && forall k :: 0 <= k < |s| ==> r[k] == s[k] as int
  {
    seq(|s|, k requires 0 <= k < |s| => s[k] as int)
  }

  lemma {:induction false} KeyIs(words: seq<seq<Byte>>, key: seq<Byte>, k: nat)
    requires k < |words| && words[k] == key && forall j :: 0 <= j < k ==> words[j] != key
    ensures Text.KeyIn(words, key) == k
  {
    if k > 0 {
      assert words[0] != key;
      KeyIs(words[1..], key, k - 1);
    }
  }

  /** The member of the header with this key. */
  ghost predicate HeaderMember(b: seq<Byte>, lo: nat, hi: nat, ms: seq<Text.Member>,
                               h: Text.Head, i: nat, key: string) {
    && Text.Spelled(b, HEADER_WORDS, lo, hi, ms, Text.Whole(h), 10, Text.FOLDS) && i < |ms|
    && ms[i].key + 2 <= ms[i].keyEnd <= |b| && (forall k :: 0 <= k < |key| ==> key[k] < '\U{80}')
    && Text.Raw(b, ms[i].key, ms[i].keyEnd) == Ascii(key)
  }

  lemma HeaderSays(b: seq<Byte>, lo: nat, hi: nat, ms: seq<Text.Member>, h: Text.Head, i: nat, key: string, k: nat)
    requires HeaderMember(b, lo, hi, ms, h, i, key) && Text.KeyIn(HEADER_WORDS, Ascii(key)) == k
    ensures Text.HeadSays(b, k, ms[i].value, ms[i].end, h)
  {
    Text.SpelledMeans(b, HEADER_WORDS, lo, hi, ms, Text.Whole(h), 10, Text.FOLDS);
    assert Text.Says(b, Text.KeyOf(b, HEADER_WORDS, ms[i]), ms[i].value, ms[i].end, Text.Whole(h));
  }

  lemma HeaderKey(key: string, k: nat)
    requires
      || (key == "entry" && k == 7) || (key == "mem" && k == 8) || (key == "phdr" && k == 10)
      || (key == "phent" && k == 11) || (key == "phnum" && k == 12)
    ensures Text.KeyIn(HEADER_WORDS, Ascii(key)) == k
  {
    assert HEADER_WORDS[k] == Ascii(key);
    KeyIs(HEADER_WORDS, Ascii(key), k);
  }

  /** The number behind "entry" is the entry point, and so on for the other numbers. */
  lemma HeaderNumbers(b: seq<Byte>, lo: nat, hi: nat, ms: seq<Text.Member>, h: Text.Head, i: nat, key: string)
    requires HeaderMember(b, lo, hi, ms, h, i, key)
    ensures key == "entry" ==> Text.NumberIs(b, ms[i].value, ms[i].end, h.header.entry)
    ensures key == "mem" ==> Text.NumberIs(b, ms[i].value, ms[i].end, h.header.virtualTop)
    ensures key == "phdr" ==> Text.NumberIs(b, ms[i].value, ms[i].end, h.header.phdr)
    ensures key == "phent" ==> Text.NumberIs(b, ms[i].value, ms[i].end, h.header.phent)
    ensures key == "phnum" ==> Text.NumberIs(b, ms[i].value, ms[i].end, h.header.phnum)
  {
    if key == "entry" || key == "mem" || key == "phdr" || key == "phent" || key == "phnum" {
      var k := if key == "entry" then 7 else if key == "mem" then 8 else if key == "phdr" then 10
               else if key == "phent" then 11 else 12;
      HeaderKey(key, k);
      HeaderSays(b, lo, hi, ms, h, i, key, k);
    }
  }

  /** The member of a section with this key. */
  ghost predicate SectionMember(b: seq<Byte>, lo: nat, hi: nat, ms: seq<Text.Member>, s: Section, i: nat, key: string) {
    && Text.Spelled(b, SECTION_WORDS, lo, hi, ms, Text.Part(s), 7, Text.FOLDS) && i < |ms|
    && ms[i].key + 2 <= ms[i].keyEnd <= |b| && (forall k :: 0 <= k < |key| ==> key[k] < '\U{80}')
    && Text.Raw(b, ms[i].key, ms[i].keyEnd) == Ascii(key)
  }

  lemma SectionKey(key: string, k: nat)
    requires
      || (key == "flg" && k == 1) || (key == "align" && k == 2) || (key == "size" && k == 3)
      || (key == "addr" && k == 4) || (key == "at" && k == 5) || (key == "len" && k == 6)
    ensures Text.KeyIn(SECTION_WORDS, Ascii(key)) == k
  {
    assert SECTION_WORDS[k] == Ascii(key);
    KeyIs(SECTION_WORDS, Ascii(key), k);
  }

  lemma SectionTells(b: seq<Byte>, lo: nat, hi: nat, ms: seq<Text.Member>, s: Section, i: nat, key: string, k: nat)
    requires SectionMember(b, lo, hi, ms, s, i, key) && Text.KeyIn(SECTION_WORDS, Ascii(key)) == k
    ensures Text.SectionSays(b, k, ms[i].value, ms[i].end, s)
  {
    Text.SpelledMeans(b, SECTION_WORDS, lo, hi, ms, Text.Part(s), 7, Text.FOLDS);
    assert Text.Says(b, Text.KeyOf(b, SECTION_WORDS, ms[i]), ms[i].value, ms[i].end, Text.Part(s));
  }

  /** The number behind "addr" is the address of the section, and so on. */
  lemma SectionNumbers(b: seq<Byte>, lo: nat, hi: nat, ms: seq<Text.Member>, s: Section, i: nat, key: string)
    requires SectionMember(b, lo, hi, ms, s, i, key)
    ensures key == "align" ==> Text.NumberIs(b, ms[i].value, ms[i].end, s.align)
    ensures key == "size" ==> Text.NumberIs(b, ms[i].value, ms[i].end, s.size)
    ensures key == "addr" ==> Text.NumberIs(b, ms[i].value, ms[i].end, s.address)
    ensures key == "at" ==> Text.NumberIs(b, ms[i].value, ms[i].end, s.at)
    ensures key == "len" ==> Text.NumberIs(b, ms[i].value, ms[i].end, s.length)
  {
    if key == "align" || key == "size" || key == "addr" || key == "at" || key == "len" {
      var k := if key == "align" then 2 else if key == "size" then 3 else if key == "addr" then 4
               else if key == "at" then 5 else 6;
      SectionKey(key, k);
      SectionTells(b, lo, hi, ms, s, i, key, k);
    }
  }

  /** The letters r, w and x behind "flg" are the bits 1, 2 and 4 of the flags. */
  lemma SectionLetters(b: seq<Byte>, lo: nat, hi: nat, ms: seq<Text.Member>, s: Section, i: nat)
    requires SectionMember(b, lo, hi, ms, s, i, "flg")
    ensures ms[i].value + 2 <= ms[i].end <= |b|
    ensures var text := Text.Raw(b, ms[i].value, ms[i].end);
            && (s.flags % 2 == 1 <==> 'r' as int in text) && (s.flags / 2 % 2 == 1 <==> 'w' as int in text)
            && (s.flags / 4 % 2 == 1 <==> 'x' as int in text)
            && forall k :: 0 <= k < |text| ==> text[k] in {'r' as int, 'w' as int, 'x' as int}
  {
    SectionKey("flg", 1);
    SectionTells(b, lo, hi, ms, s, i, "flg", 1);
  }
}
