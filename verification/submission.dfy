/**
 * The pure pieces of a "Generate" submission: the `yyyyMMdd-HHmmss`
 * timestamp token, the two filenames derived from it, the base64 payload
 * cut out of a data URL, the image URL picked from the webhook's reply,
 * and the request record that carries them.
 */
module Submission {
  import opened Wrappers
  import opened Decimal
  import opened Text

  /**
   * A local wall-clock reading as the `Date` getters return it:
   * `month` counts from 0 (`getMonth`), `day` from 1 (`getDate`).
   */
  datatype LocalTime = LocalTime(year: nat, month: nat, day: nat, hours: nat, minutes: nat, seconds: nat)

  /** The ranges the `Date` getters keep to. */
  predicate InRange(t: LocalTime) {
    t.month < 12 && 1 <= t.day <= 31 && t.hours < 24 && t.minutes < 60 && t.seconds < 60
  }

  predicate FourDigitYear(t: LocalTime) {
    1000 <= t.year <= 9999
  }

  /** The shape of a token: fifteen characters, digits everywhere but a `-` at index 8. */
  predicate TimestampLayout(ts: string) {
    |ts| == 15 && ts[8] == '-' && forall i :: 0 <= i < 15 && i != 8 ==> IsDigit(ts[i])
  }

  /**
   * The timestamp token: the year as `String` writes it, then month + 1,
   * day, hours, minutes and seconds, each padded to two digits with '0',
   * with a `-` between the date and the time.
   */
  function Timestamp(t: LocalTime): string {
    NatToString(t.year) + Pad2(t.month + 1) + Pad2(t.day) + "-" +
    Pad2(t.hours) + Pad2(t.minutes) + Pad2(t.seconds)
  }

  /** The token of an in-range reading with a four-digit year, spelled out character by character. */
  function Token(t: LocalTime): string
    requires InRange(t) && FourDigitYear(t)
  {
    [DigitChar(t.year / 1000), DigitChar(t.year / 100 % 10), DigitChar(t.year / 10 % 10), DigitChar(t.year % 10),
     DigitChar((t.month + 1) / 10), DigitChar((t.month + 1) % 10), DigitChar(t.day / 10), DigitChar(t.day % 10),
     '-',
     DigitChar(t.hours / 10), DigitChar(t.hours % 10), DigitChar(t.minutes / 10), DigitChar(t.minutes % 10),
     DigitChar(t.seconds / 10), DigitChar(t.seconds % 10)]
  }

  /** `Timestamp` of a four-digit year writes exactly the characters of `Token`. */
  lemma TimestampChars(t: LocalTime)
    requires InRange(t) && FourDigitYear(t)
    ensures Timestamp(t) == Token(t)
  {
    var y, mo, d := NatToString(t.year), Pad2(t.month + 1), Pad2(t.day);
    var h, mi, s := Pad2(t.hours), Pad2(t.minutes), Pad2(t.seconds);
    assert Timestamp(t) == y + mo + d + "-" + h + mi + s;
    assert y + mo + d + "-" + h + mi + s == Token(t) by {
      FourDigits(t.year);
      Pad2Digits(t.month + 1);
      Pad2Digits(t.day);
      Pad2Digits(t.hours);
      Pad2Digits(t.minutes);
      Pad2Digits(t.seconds);
      TokenOfPieces(t, y, mo, d, h, mi, s);
    }
  }

  /** The pieces `Timestamp` lays end to end, each spelled out, make up `Token`. */
  lemma TokenOfPieces(t: LocalTime, y: string, mo: string, d: string, h: string, mi: string, s: string)
    requires InRange(t) && FourDigitYear(t)
    requires y == [DigitChar(t.year / 1000), DigitChar(t.year / 100 % 10), DigitChar(t.year / 10 % 10), DigitChar(t.year % 10)]
    requires mo == [DigitChar((t.month + 1) / 10), DigitChar((t.month + 1) % 10)]
    requires d == [DigitChar(t.day / 10), DigitChar(t.day % 10)]
    requires h == [DigitChar(t.hours / 10), DigitChar(t.hours % 10)]
    requires mi == [DigitChar(t.minutes / 10), DigitChar(t.minutes % 10)]
    requires s == [DigitChar(t.seconds / 10), DigitChar(t.seconds % 10)]
    ensures y + mo + d + "-" + h + mi + s == Token(t)
  {
    Concat(y, mo, d, h, mi, s);
  }

  lemma Pad2Digits(n: nat)
    requires n < 100
    ensures Pad2(n) == [DigitChar(n / 10), DigitChar(n % 10)]
  {
  }

  /** A four-character piece, two pairs, a `-` and three more pairs, laid end to end. */
  lemma Concat(y: string, mo: string, d: string, h: string, mi: string, s: string)
    requires |y| == 4 && |mo| == 2 && |d| == 2 && |h| == 2 && |mi| == 2 && |s| == 2
    ensures y + mo + d + "-" + h + mi + s ==
      [y[0], y[1], y[2], y[3], mo[0], mo[1], d[0], d[1], '-', h[0], h[1], mi[0], mi[1], s[0], s[1]]
  {
  }

  /** `String(y)` of a four-digit year is its four digits. */
  lemma FourDigits(y: nat)
    requires 1000 <= y <= 9999
    ensures NatToString(y) == [DigitChar(y / 1000), DigitChar(y / 100 % 10), DigitChar(y / 10 % 10), DigitChar(y % 10)]
  {
    assert y / 10 / 10 == y / 100 && y / 100 / 10 == y / 1000;
    assert NatToString(y / 1000) == [DigitChar(y / 1000)];
    assert NatToString(y / 100) == NatToString(y / 1000) + [DigitChar(y / 100 % 10)];
    assert NatToString(y / 10) == NatToString(y / 100) + [DigitChar(y / 10 % 10)];
  }

  /** With a four-digit year the token is fifteen characters: digits and a `-` at index 8. */
  lemma TimestampShape(t: LocalTime)
    requires InRange(t) && FourDigitYear(t)
    ensures TimestampLayout(Timestamp(t))
  {
    TimestampChars(t);
    TokenReadsBack(t);
  }

  /** The two-digit field at `ts[lo..lo + 2]`. */
  function Pair(ts: string, lo: nat): nat
    requires lo + 2 <= |ts| && IsDigit(ts[lo]) && IsDigit(ts[lo + 1])
  {
    10 * DigitValue(ts[lo]) + DigitValue(ts[lo + 1])
  }

  /** Reads a token back into the clock reading it was made from. */
  function ParseTimestamp(ts: string): Option<LocalTime> {
    if TimestampLayout(ts) && Pair(ts, 4) >= 1 then
      Some(LocalTime(100 * Pair(ts, 0) + Pair(ts, 2), Pair(ts, 4) - 1, Pair(ts, 6),
                     Pair(ts, 9), Pair(ts, 11), Pair(ts, 13)))
    else
      None
  }

  /** Every token of a four-digit year reads back to its clock reading. */
  lemma TimestampRoundTrip(t: LocalTime)
    requires InRange(t) && FourDigitYear(t)
    ensures ParseTimestamp(Timestamp(t)) == Some(t)
  {
    TimestampChars(t);
    TokenReadsBack(t);
  }

  /** The spelled-out token is well laid out and reads back to its reading. */
  lemma TokenReadsBack(t: LocalTime)
    requires InRange(t) && FourDigitYear(t)
    ensures TimestampLayout(Token(t)) && ParseTimestamp(Token(t)) == Some(t)
  {
    var ts := Token(t);
    assert TimestampLayout(ts);
    var y := t.year;
    YearDigits(y);
    PairValue(t.month + 1);
    PairValue(t.day);
    PairValue(t.hours);
    PairValue(t.minutes);
    PairValue(t.seconds);
    assert Pair(ts, 0) == 10 * (y / 1000) + y / 100 % 10;
    assert Pair(ts, 2) == 10 * (y / 10 % 10) + y % 10;
    assert Pair(ts, 4) == t.month + 1;
    assert Pair(ts, 6) == t.day;
    assert Pair(ts, 9) == t.hours;
    assert Pair(ts, 11) == t.minutes;
    assert Pair(ts, 13) == t.seconds;
  }

  lemma PairValue(n: nat)
    requires n < 100
    ensures 10 * DigitValue(DigitChar(n / 10)) + DigitValue(DigitChar(n % 10)) == n
  {
  }

  /** A year is rebuilt from its first and last two digits. */
  lemma YearDigits(y: nat)
    ensures 100 * (10 * (y / 1000) + y / 100 % 10) + (10 * (y / 10 % 10) + y % 10) == y
  {
    var a, b := y / 10, y / 100;
    assert y == 10 * a + y % 10;
    assert a / 10 == b && a == 10 * b + a % 10;
    assert b / 10 == y / 1000 && b == 10 * (y / 1000) + b % 10;
  }

  /** Two in-range readings of four-digit years give the same token only if they are equal. */
  lemma TimestampInjective(t: LocalTime, u: LocalTime)
    requires InRange(t) && FourDigitYear(t) && InRange(u) && FourDigitYear(u)
    ensures Timestamp(t) == Timestamp(u) ==> t == u
  {
    TimestampRoundTrip(t);
    TimestampRoundTrip(u);
  }

  /** Which of the two derived filenames a name is. */
  datatype Role = Input | Output

  /** Reads `in_<ts>.jpg` or `out_<ts>.jpg` back into its role and its timestamp. */
  function ParseFilename(name: string): Option<(Role, string)> {
    if |name| >= 7 && StartsWith(name, "in_") && EndsWith(name, ".jpg") then
      Some((Input, name[3..|name| - 4]))
    else if |name| >= 8 && StartsWith(name, "out_") && EndsWith(name, ".jpg") then
      Some((Output, name[4..|name| - 4]))
    else
      None
  }

  /** `in_${timestamp}.jpg` */
  function InputFilename(ts: string): (name: string)
    ensures ParseFilename(name) == Some((Input, ts))
    ensures |name| == |ts| + 7
  {
    var name := "in_" + ts + ".jpg";
    assert name[..3] == "in_" && name[|name| - 4..] == ".jpg" && name[3..|name| - 4] == ts;
    name
  }

  /** `out_${timestamp}.jpg` */
  function OutputFilename(ts: string): (name: string)
    ensures ParseFilename(name) == Some((Output, ts))
    ensures |name| == |ts| + 8
  {
    var name := "out_" + ts + ".jpg";
    assert name[..4] == "out_" && name[|name| - 4..] == ".jpg" && name[4..|name| - 4] == ts;
    assert name[..3] != "in_" by { assert name[0] == 'o'; }
    name
  }

  /**
   * `dataUrl.split(',')[1]`: the text between the first comma and the next
   * comma (or the end); absent (`undefined`) when there is no comma.
   */
  function Payload(dataUrl: string): (p: Option<string>)
    ensures p.None? <==> ',' !in dataUrl
    ensures p.Some? ==> ',' !in p.value
    ensures p.Some? ==>
      var i := IndexOf(dataUrl, ',');
      var e := i + 1 + |p.value|;
      e <= |dataUrl| && dataUrl[i + 1..e] == p.value && (e == |dataUrl| || dataUrl[e] == ',')
  {
    if ',' in dataUrl then
      SecondPiece(dataUrl, ',');
      Some(Split(dataUrl, ',')[1])
    else
      None
  }

  /** For `data:<mime>;base64,<payload>` with no comma in mime or payload, the payload is what is sent. */
  lemma PayloadOfDataUrl(mime: string, payload: string)
    requires ',' !in mime && ',' !in payload
    ensures Payload("data:" + mime + ";base64," + payload) == Some(payload)
  {
    var header := "data:" + mime + ";base64";
    var s := "data:" + mime + ";base64," + payload;
    assert s == header + [','] + payload;
    assert ',' !in header by {
      assert header == "data:" + mime + ";base64";
      forall k | 0 <= k < |header| ensures header[k] != ',' {
        if k < 5 {
        } else if k < 5 + |mime| {
          assert header[k] == mime[k - 5];
        } else {
        }
      }
    }
    assert s[|header|] == ',' && s[..|header|] == header;
    assert IndexOf(s, ',') == |header|;
    assert s[|header| + 1..] == payload;
    var p := Payload(s).value;
    assert |header| + 1 + |p| <= |s|;
    assert s[|header| + 1..|header| + 1 + |p|] == payload[..|p|];
    assert |p| == |payload|;
  }

  /** The webhook's JSON reply, reduced to the four fields an image URL may come in. */
  datatype Reply = Reply(outputImageUrl: Option<string>, imageUrl: Option<string>,
                         ghlImageUrl: Option<string>, url: Option<string>)

  /** A JavaScript string value is truthy when it is present and not empty. */
  predicate Truthy(v: Option<string>) {
    v.Some? && v.value != ""
  }

  /** The value an `a || b || ...` chain settles on, when one of them is truthy. */
  function FirstTruthy(vs: seq<Option<string>>): (r: Option<string>)
    ensures r.None? <==> forall k :: 0 <= k < |vs| ==> !Truthy(vs[k])
    ensures r.Some? ==>
              Truthy(r) && exists k :: 0 <= k < |vs| && vs[k] == r && forall j :: 0 <= j < k ==> !Truthy(vs[j])
  {
    if vs == [] then
      None
    else if Truthy(vs[0]) then
      vs[0]
    else
      var r := FirstTruthy(vs[1..]);
      assert r.Some? ==> exists k :: 0 <= k < |vs| && vs[k] == r && forall j :: 0 <= j < k ==> !Truthy(vs[j]) by {
        if r.Some? {
          var k :| 0 <= k < |vs[1..]| && vs[1..][k] == r && forall j :: 0 <= j < k ==> !Truthy(vs[1..][j]);
          assert vs[k + 1] == r;
          assert forall j :: 0 <= j < k + 1 ==> !Truthy(vs[j]) by {
            forall j | 0 <= j < k + 1 ensures !Truthy(vs[j]) {
              if j > 0 { assert vs[j] == vs[1..][j - 1]; }
            }
          }
        }
      }
      r
  }

  /**
   * `result?.outputImageUrl || result?.imageUrl || result?.ghlImageUrl || result?.url`,
   * absent when none of the four is truthy.
   */
  function SelectUrl(reply: Reply): (u: Option<string>)
    ensures Truthy(reply.outputImageUrl) ==> u == reply.outputImageUrl
    ensures !Truthy(reply.outputImageUrl) && Truthy(reply.imageUrl) ==> u == reply.imageUrl
    ensures !Truthy(reply.outputImageUrl) && !Truthy(reply.imageUrl) && Truthy(reply.ghlImageUrl) ==>
      u == reply.ghlImageUrl
    ensures (!Truthy(reply.outputImageUrl) && !Truthy(reply.imageUrl) && !Truthy(reply.ghlImageUrl) &&
             Truthy(reply.url)) ==> u == reply.url
    ensures u.None? <==> (!Truthy(reply.outputImageUrl) && !Truthy(reply.imageUrl) &&
                          !Truthy(reply.ghlImageUrl) && !Truthy(reply.url))
    ensures u.Some? ==> u.value != ""
  {
    var vs := [reply.outputImageUrl, reply.imageUrl, reply.ghlImageUrl, reply.url];
    var r := FirstTruthy(vs);
    assert r.Some? ==> exists k :: 0 <= k < 4 && vs[k] == r && forall j :: 0 <= j < k ==> !Truthy(vs[j]);
    assert vs[0] == reply.outputImageUrl && vs[1] == reply.imageUrl && vs[2] == reply.ghlImageUrl && vs[3] == reply.url;
    r
  }

  /** The JSON body posted to the webhook; an absent `imageBase64` is dropped by `JSON.stringify`. */
  datatype GenerationRequest = GenerationRequest(
    imageBase64: Option<string>,
    prompt: string,
    timestamp: string,
    inputFilename: string,
    outputFilename: string,
    filename: string)

  /**
   * `fileNameInput ? fileNameInput.value.trim() : ''`: the optional filename
   * field, trimmed, or empty when the page has no such field.
   */
  function NormalizeFilename(field: Option<string>): (name: string)
    ensures Trimmed(name)
    ensures field.None? ==> name == ""
    ensures field.Some? ==> name == Trim(field.value)
    ensures field.Some? ==>
      exists a, b :: AllWhiteSpace(a) && AllWhiteSpace(b) && field.value == a + name + b
  {
    if field.Some? then
      var s := field.value;
      var r, i := Trim(s), Start(s, 0);
      var a, b := s[..i], s[i + |r|..];
      assert AllWhiteSpace(a) && AllWhiteSpace(b) && s == a + r + b;
      r
    else
      ""
  }

  /** Assembles the request from the file's data URL, the trimmed prompt, the clock and the filename. */
  function BuildRequest(dataUrl: string, prompt: string, now: LocalTime, filename: string): (req: GenerationRequest)
    ensures req.timestamp == Timestamp(now)
    ensures ParseFilename(req.inputFilename) == Some((Input, req.timestamp))
    ensures ParseFilename(req.outputFilename) == Some((Output, req.timestamp))
    ensures InRange(now) && FourDigitYear(now) ==>
      ParseTimestamp(req.timestamp) == Some(now) && |req.inputFilename| == 22 && |req.outputFilename| == 23
    ensures req.imageBase64 == Payload(dataUrl)
    ensures req.prompt == prompt && req.filename == filename
  {
    var ts := Timestamp(now);
    assert InRange(now) && FourDigitYear(now) ==> ParseTimestamp(ts) == Some(now) && |ts| == 15 by {
      if InRange(now) && FourDigitYear(now) {
        TimestampRoundTrip(now);
        TimestampShape(now);
      }
    }
    GenerationRequest(Payload(dataUrl), prompt, ts, InputFilename(ts), OutputFilename(ts), filename)
  }
}
