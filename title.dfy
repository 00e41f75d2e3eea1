/**
 * The file name a lecture is saved under: the recording's name, trimmed,
 * with the characters that file systems refuse replaced by '-', and, when
 * the recording carries a creation time, prefixed with
 * `Lesson YYYY_MM_DD - `. The creation time enters already decoded into
 * year, month and day (the `Date` parsing of the ISO string is not modelled).
 */
module Title {
  import opened Strings

  type Month = m: int | 1 <= m <= 12 witness 1
  type Day = d: int | 1 <= d <= 31 witness 1

  /** The calendar date of `new Date(createTime)`: `getFullYear()`, `getMonth() + 1`, `getDate()`. */
  datatype Date = Date(year: int, month: Month, day: Day)

  /** `createTime` as the recording API reports it: null or '' (no prefix), or a date. */
  datatype CreateTime = NoCreateTime | CreatedOn(date: Date)

  /** The characters `String.prototype.trim` removes: ECMAScript WhiteSpace
      (TAB, VT, FF, ZWNBSP and the space separators) and LineTerminator. */
  predicate IsTrimmable(c: char) {
    c == '\t' || c == '\n' || c == '\U{000B}' || c == '\U{000C}' || c == '\r' || c == ' ' ||
    c == '\U{00A0}' || c == '\U{1680}' || '\U{2000}' <= c <= '\U{200A}' ||
    c == '\U{2028}' || c == '\U{2029}' || c == '\U{202F}' || c == '\U{205F}' ||
    c == '\U{3000}' || c == '\U{FEFF}'
  }

  /** `s` without its leading trimmable characters. */
  function TrimStart(s: string): (r: string)
    ensures |r| <= |s| && r == s[|s| - |r|..]
    ensures forall k :: 0 <= k < |s| - |r| ==> IsTrimmable(s[k])
    ensures r == [] || !IsTrimmable(r[0])
    decreases |s|
  {
    if |s| > 0 && IsTrimmable(s[0]) then TrimStart(s[1..]) else s
  }

  /** `s` without its trailing trimmable characters. */
  function TrimEnd(s: string): (r: string)
    ensures |r| <= |s| && r == s[..|r|]
    ensures forall k :: |r| <= k < |s| ==> IsTrimmable(s[k])
    ensures r == [] || !IsTrimmable(r[|r| - 1])
    decreases |s|
  {
    if |s| > 0 && IsTrimmable(s[|s| - 1]) then TrimEnd(s[..|s| - 1]) else s
  }

  /** `s.trim()`: the longest middle part of `s` that neither starts nor ends with a
      trimmable character; everything cut off on either side is trimmable. */
  function Trim(s: string): (r: string)
    ensures r == [] || (!IsTrimmable(r[0]) && !IsTrimmable(r[|r| - 1]))
    ensures var start := |s| - |TrimStart(s)|;
      start + |r| <= |s| && r == s[start..start + |r|] &&
      (forall k :: 0 <= k < start ==> IsTrimmable(s[k])) &&
      (forall k :: start + |r| <= k < |s| ==> IsTrimmable(s[k]))
  {
    var t := TrimStart(s);
    var r := TrimEnd(t);
    TrimmedSlice(s, t, r);
    r
  }

  /** A prefix `r` of a suffix `t` of `s` is a middle slice of `s`, and what `r`
      leaves of `t` is what it leaves of `s` on the right. */
  lemma TrimmedSlice(s: string, t: string, r: string)
    requires |t| <= |s| && t == s[|s| - |t|..]
    requires |r| <= |t| && r == t[..|r|]
    requires forall k :: |r| <= k < |t| ==> IsTrimmable(t[k])
    ensures var start := |s| - |t|;
      start + |r| <= |s| && r == s[start..start + |r|] &&
      forall k :: start + |r| <= k < |s| ==> IsTrimmable(s[k])
  {
    var start := |s| - |t|;
    forall k | start + |r| <= k < |s|
      ensures IsTrimmable(s[k])
    {
      assert s[k] == t[k - start];
    }
  }

  /** Trimming twice is trimming once. */
  lemma TrimIdempotent(s: string)
    ensures Trim(Trim(s)) == Trim(s)
  {
    var r := Trim(s);
    assert r == [] || !IsTrimmable(r[0]);
    assert TrimStart(r) == r;
    assert r == [] || !IsTrimmable(r[|r| - 1]);
    assert TrimEnd(r) == r;
  }

  /** The characters the title rule replaces: `/ \ ? % * : ; | " < >`. */
  predicate IsIllegal(c: char) {
    c == '/' || c == '\\' || c == '?' || c == '%' || c == '*' || c == ':' ||
    c == ';' || c == '|' || c == '"' || c == '<' || c == '>'
  }

  predicate NoIllegal(s: string) {
    forall i :: 0 <= i < |s| ==> !IsIllegal(s[i])
  }

  /** `s.replace(/[/\\?%*:;|"<>]/g, '-')`. */
  function Sanitize(s: string): (r: string)
    ensures |r| == |s|
    ensures forall i :: 0 <= i < |s| && !IsIllegal(s[i]) ==> r[i] == s[i]
    ensures forall i :: 0 <= i < |s| && IsIllegal(s[i]) ==> r[i] == '-'
    ensures NoIllegal(r)
    decreases |s|
  {
    if |s| == 0 then []
    else [if IsIllegal(s[0]) then '-' else s[0]] + Sanitize(s[1..])
  }

  /** Sanitising a sanitised name changes nothing. */
  lemma SanitizeIdempotent(s: string)
    ensures Sanitize(Sanitize(s)) == Sanitize(s)
  {
    var r := Sanitize(s);
    assert forall i :: 0 <= i < |r| ==> Sanitize(r)[i] == r[i];
  }

  /** `if (n < 10) n = '0' + n`, then the decimal text of the value. */
  function Pad2(n: nat): (r: string)
    ensures n < 100 ==> |r| == 2 && AllDigits(r) && ParseNat(r) == n
  {
    NatToStringLength(n);
    ParseNatToString(n);
    if n < 10 then
      ParseNatLeadingZero(NatToString(n));
      "0" + NatToString(n)
    else NatToString(n)
  }

  /** `'Lesson ' + year + '_' + month + '_' + dt + ' - '`: the prefix opens with
      `Lesson `, closes with ` - `, and between them holds the year followed by the
      two-digit month and day. */
  function DatePrefix(d: Date): (r: string)
    ensures StartsWith(r, "Lesson ")
    ensures EndsWith(r, " - ")
    ensures |r| == 16 + |IntToString(d.year)|
  {
    var middle := IntToString(d.year) + "_" + Pad2(d.month) + "_" + Pad2(d.day);
    var r := "Lesson " + middle + " - ";
    assert r == "Lesson " + IntToString(d.year) + "_" + Pad2(d.month) + "_" + Pad2(d.day) + " - ";
    r
  }

  /** The title built at poliwebex.js lines 181-199: the file name never holds an
      illegal character, and it ends with the trimmed, sanitised record name, which
      it equals when there is no creation time. */
  function BuildTitle(recordName: string, createTime: CreateTime): (title: string)
    ensures NoIllegal(title)
    ensures EndsWith(title, Sanitize(Trim(recordName)))
    ensures createTime.NoCreateTime? ==> title == Sanitize(Trim(recordName))
  {
    var name := Sanitize(Trim(recordName));
    match createTime
    case NoCreateTime => name
    case CreatedOn(d) =>
      var prefix := DatePrefix(d);
      DatePrefixLegal(d);
      NoIllegalAppend(prefix, name);
      var title := prefix + name;
      assert title[|title| - |name|..] == name;
      title
  }

  lemma NoIllegalAppend(a: string, b: string)
    requires NoIllegal(a) && NoIllegal(b)
    ensures NoIllegal(a + b)
  {
    assert forall i :: |a| <= i < |a + b| ==> (a + b)[i] == b[i - |a|];
  }

  /** The date prefix is made of letters, digits, '_', '-' and spaces only. */
  lemma DatePrefixLegal(d: Date)
    ensures NoIllegal(DatePrefix(d))
  {
    var y := IntToString(d.year);
    var m := Pad2(d.month);
    var dd := Pad2(d.day);
    NumberLegal(y);
    NumberLegal(m);
    NumberLegal(dd);
    FixedPiecesLegal();
    var p1 := "Lesson " + y;
    NoIllegalAppend("Lesson ", y);
    var p2 := p1 + "_";
    NoIllegalAppend(p1, "_");
    var p3 := p2 + m;
    NoIllegalAppend(p2, m);
    var p4 := p3 + "_";
    NoIllegalAppend(p3, "_");
    var p5 := p4 + dd;
    NoIllegalAppend(p4, dd);
    NoIllegalAppend(p5, " - ");
  }

  /** Decimal text, with or without a sign, holds no illegal character. */
  lemma NumberLegal(s: string)
    requires forall k :: 0 <= k < |s| ==> IsDigit(s[k]) || s[k] == '-'
    ensures NoIllegal(s)
  {
  }

  lemma FixedPiecesLegal()
    ensures NoIllegal("Lesson ") && NoIllegal("_") && NoIllegal(" - ")
  {
  }

  /** Where each part of the date prefix sits, for a four-digit year. */
  lemma DatePrefixLayout(d: Date)
    requires 1000 <= d.year <= 9999
    ensures var p := DatePrefix(d);
      |p| == 20 && p[..7] == "Lesson " && p[7..11] == IntToString(d.year) && p[11] == '_' &&
      p[12..14] == Pad2(d.month) && p[14] == '_' && p[15..17] == Pad2(d.day) && p[17..20] == " - "
  {
    var y := IntToString(d.year);
    var m := Pad2(d.month);
    var dd := Pad2(d.day);
    NatToStringLength(d.year);
    assert |y| == 4 && |m| == 2 && |dd| == 2;
    var p1 := "Lesson " + y;
    assert p1[..7] == "Lesson " && p1[7..] == y;
    var p2 := p1 + "_";
    assert p2[..11] == p1 && p2[11] == '_';
    var p3 := p2 + m;
    assert p3[..12] == p2 && p3[12..] == m;
    var p4 := p3 + "_";
    assert p4[..14] == p3 && p4[14] == '_';
    var p5 := p4 + dd;
    assert p5[..15] == p4 && p5[15..] == dd;
    var p := p5 + " - ";
    assert p[..17] == p5 && p[17..] == " - ";
    assert p == DatePrefix(d);
  }

  /** For a four-digit year the date can be read back out of the title: the year at
      characters 7-10, the zero-padded month at 12-13 and day at 15-16, and the
      sanitised name from character 20 on. */
  lemma TitleLayout(recordName: string, d: Date)
    requires 1000 <= d.year <= 9999
    ensures var t := BuildTitle(recordName, CreatedOn(d));
      |t| == 20 + |Trim(recordName)| &&
      t[..7] == "Lesson " && t[11] == '_' && t[14] == '_' && t[17..20] == " - " &&
      AllDigits(t[7..11]) && ParseNat(t[7..11]) == d.year &&
      AllDigits(t[12..14]) && ParseNat(t[12..14]) == d.month &&
      AllDigits(t[15..17]) && ParseNat(t[15..17]) == d.day &&
      t[20..] == Sanitize(Trim(recordName))
  {
    var p := DatePrefix(d);
    var name := Sanitize(Trim(recordName));
    DatePrefixLayout(d);
    ParseNatToString(d.year);
    var t := BuildTitle(recordName, CreatedOn(d));
    assert t == p + name;
    PrefixPieces(p, name);
  }

  /** The pieces of a 20-character prefix can be read back after a name is appended. */
  lemma PrefixPieces(p: string, name: string)
    requires |p| == 20
    ensures var t := p + name;
      |t| == 20 + |name| && t[..7] == p[..7] && t[7..11] == p[7..11] && t[11] == p[11] &&
      t[12..14] == p[12..14] && t[14] == p[14] && t[15..17] == p[15..17] &&
      t[17..20] == p[17..20] && t[20..] == name
  {
    var t := p + name;
    assert t[..20] == p;
    assert t[..7] == p[..7];
    assert t[7..11] == p[7..11];
    assert t[12..14] == p[12..14];
    assert t[15..17] == p[15..17];
    assert t[17..20] == p[17..20];
  }
}
