/** The canonical form of a record written out flat, and the one vector that fixes it byte for byte. */
module AuditGolden {
  import opened ByteStrings
  import opened Options
  import opened AuditRecord
  import opened JsonString
  import AuditGap
  import Decimal
  import Seqs
  import Timestamp

  function Num(key: string, n: int): (b: Bytes) { Ascii(key) + Decimal.Int(n) }

  ghost function Str(key: string, s: Bytes): (b: Bytes) { Ascii(key) + Quoted(s) }

  /** The fourteen members of a record, one after another. */
  ghost function Flat(r: Record, ts: Bytes): (b: Bytes) {
    FlatFront(r, ts) + Str(",\"decision\":", r.decision) + Str(",\"result\":", r.result)
    + Num(",\"bytes\":", r.bytes) + Str(",\"sha256\":", r.sha256) + Num(",\"volume\":{\"dev\":", r.dev)
    + Num(",\"ino\":", r.ino) + Str("},\"prev\":", r.prev)
  }

  ghost function FlatFront(r: Record, ts: Bytes): (b: Bytes) {
    Num("{\"seq\":", r.seq_) + Str(",\"ts\":", ts) + Str(",\"op\":", r.op) + Num(",\"caller_uid\":", r.callerUid)
    + Str(",\"client_asserted\":", r.clientAsserted) + Str(",\"serial\":", r.serial) + Str(",\"path_b64\":", r.pathB64)
  }

  /** Seven members from `i` on, one after another. */
  lemma SevenJoin(ms: seq<Member>, i: nat)
    requires i + 7 <= |ms|
    ensures Render(ms[..i + 7]) == Render(ms[..i]) + Text(ms[i]) + Text(ms[i + 1]) + Text(ms[i + 2]) + Text(ms[i + 3])
                                   + Text(ms[i + 4]) + Text(ms[i + 5]) + Text(ms[i + 6])
  {
    hide Text, Render;
    RenderNext(ms, i);
    RenderNext(ms, i + 1);
    RenderNext(ms, i + 2);
    RenderNext(ms, i + 3);
    RenderNext(ms, i + 4);
    RenderNext(ms, i + 5);
    RenderNext(ms, i + 6);
  }

  lemma NumText(m: Member, k: Key, key: string, n: int)
    requires m == Member(k, Value.Num(n)) && KeyText(k) == Ascii(key)
    ensures Text(m) == Num(key, n)
  {
    hide Decimal.Int, Ascii, KeyText;
  }

  lemma StrText(m: Member, k: Key, key: string, s: Bytes)
    requires m == Member(k, Value.Str(s)) && KeyText(k) == Ascii(key)
    ensures Text(m) == Str(key, s)
  {
    hide Quoted, Ascii, KeyText;
  }

  lemma FrontTexts(r: Record, ts: Bytes)
    ensures
      var ms := Members(r, ts);
      && Text(ms[0]) == Num("{\"seq\":", r.seq_) && Text(ms[1]) == Str(",\"ts\":", ts)
      && Text(ms[2]) == Str(",\"op\":", r.op) && Text(ms[3]) == Num(",\"caller_uid\":", r.callerUid)
      && Text(ms[4]) == Str(",\"client_asserted\":", r.clientAsserted)
      && Text(ms[5]) == Str(",\"serial\":", r.serial) && Text(ms[6]) == Str(",\"path_b64\":", r.pathB64)
  {
    hide Text, Num, Str, Ascii;
    var ms := Members(r, ts);
    NumText(ms[0], KSeq, "{\"seq\":", r.seq_);
    StrText(ms[1], KTs, ",\"ts\":", ts);
    StrText(ms[2], KOp, ",\"op\":", r.op);
    NumText(ms[3], KCallerUid, ",\"caller_uid\":", r.callerUid);
    StrText(ms[4], KClientAsserted, ",\"client_asserted\":", r.clientAsserted);
    StrText(ms[5], KSerial, ",\"serial\":", r.serial);
    StrText(ms[6], KPathB64, ",\"path_b64\":", r.pathB64);
  }

  lemma BackTexts(r: Record, ts: Bytes)
    ensures
      var ms := Members(r, ts);
      && Text(ms[7]) == Str(",\"decision\":", r.decision) && Text(ms[8]) == Str(",\"result\":", r.result)
      && Text(ms[9]) == Num(",\"bytes\":", r.bytes) && Text(ms[10]) == Str(",\"sha256\":", r.sha256)
      && Text(ms[11]) == Num(",\"volume\":{\"dev\":", r.dev) && Text(ms[12]) == Num(",\"ino\":", r.ino)
      && Text(ms[13]) == Str("},\"prev\":", r.prev)
  {
    hide Text, Num, Str, Ascii;
    var ms := Members(r, ts);
    StrText(ms[7], KDecision, ",\"decision\":", r.decision);
    StrText(ms[8], KResult, ",\"result\":", r.result);
    NumText(ms[9], KBytes, ",\"bytes\":", r.bytes);
    StrText(ms[10], KSha256, ",\"sha256\":", r.sha256);
    NumText(ms[11], KDev, ",\"volume\":{\"dev\":", r.dev);
    NumText(ms[12], KIno, ",\"ino\":", r.ino);
    StrText(ms[13], KPrev, "},\"prev\":", r.prev);
  }

  lemma MembersAreFlat(r: Record, ts: Bytes)
    ensures Render(Members(r, ts)) == Flat(r, ts)
  {
    hide Members, Text, Render, Num, Str;
    var ms := Members(r, ts);
    FrontTexts(r, ts);
    BackTexts(r, ts);
    SevenJoin(ms, 0);
    SevenJoin(ms, 7);
    NothingRendered();
    assert ms[..0] == [] && ms[..14] == ms;
    Seqs.TakeAll(Text(ms[0]));
  }

  lemma NothingRendered()
    ensures Render([]) == []
  {
  }

  /** The canonical form of every record is its members written out, between braces. */
  lemma CanonicalIsFlat(r: Record)
    ensures
      CanonicalForm(r) ==
      match Timestamp.CanonicalTime(r.ts) case None => None case Some(ts) => Some(Flat(r, ts) + Ascii("}"))
  {
    hide Render, Members, Flat, Timestamp.CanonicalTime;
    if Timestamp.CanonicalTime(r.ts).Some? { MembersAreFlat(r, Timestamp.CanonicalTime(r.ts).value); }
    assert CLOSE == Ascii("}");
  }

  /** Its line is the same with the hash as its last member, and a line feed. */
  lemma LineIsFlat(r: Record)
    ensures
      Line(r) ==
      match Timestamp.CanonicalTime(r.ts)
      case None => None
      case Some(ts) => Some(Flat(r, ts) + Str(",\"hash\":", r.hash) + Ascii("}") + [10])
  {
    hide Render, Members, Flat, Timestamp.CanonicalTime, Text, Str;
    if Timestamp.CanonicalTime(r.ts).Some? {
      var ms := Members(r, Timestamp.CanonicalTime(r.ts).value);
      MembersAreFlat(r, Timestamp.CanonicalTime(r.ts).value);
      RenderSnoc(ms, HashMember(r));
      StrText(HashMember(r), KHash, ",\"hash\":", r.hash);
    }
    assert CLOSE == Ascii("}");
  }

  // ---- The vector ----

  lemma AsciiJoins(a: string, b: string)
    ensures Ascii(a) + Ascii(b) == Ascii(a + b)
  {
  }

  /** No character of `s` needs another spelling in a literal. */
  predicate IsPlain(s: string) {
    forall i :: 0 <= i < |s| ==> ' ' <= s[i] <= '~' && s[i] != '\"' && s[i] != '\\'
  }

  function Literal(s: string): string { "\"" + s + "\"" }

  lemma StrIs(key: string, s: string)
    requires IsPlain(s)
    ensures Str(key, Ascii(s)) == Ascii(key + Literal(s))
  {
    assert AuditGap.AllPlain(Ascii(s));
    AuditGap.PlainEscaped(Ascii(s));
    hide IsPlain, Escaped;
    assert Ascii("\"") == [QUOTE];
    AsciiJoins("\"", s);
    AsciiJoins("\"" + s, "\"");
    AsciiJoins(key, Literal(s));
  }

  lemma NumIs(key: string, n: int, digits: string)
    requires Decimal.Int(n) == Ascii(digits)
    ensures Num(key, n) == Ascii(key + digits)
  {
    AsciiJoins(key, digits);
  }

  function SampleSum(): string { "9f86d081884c7d659a2feaa0c55ad015" + "a3bf4f1b2b0b822cd15d6c15b0f00a08" }

  function SamplePrev(): string { "000102030405060708090a0b0c0d0e0f" + "101112131415161718191a1b1c1d1e1f" }

  function SampleMoment(): Timestamp.Time { Timestamp.Calendar(2026, 7, 30, 16, 52, 3, 114_000_000) }

  /** The record whose canonical bytes the repository fixes. */
  function Sample(): Record {
    Record(42, SampleMoment(), Ascii("pull"), 1000,
           Ascii("/sdcard/DCIM/a<b>&c.jpg"), Ascii("R58MA0ABCDE"), Ascii("L3NkY2FyZC9EQ0lNL2E8Yj4mYy5qcGc="),
           Ascii("allow"), Ascii("ok"), 1048576,
           Ascii(SampleSum()), 190, 3252,
           Ascii(SamplePrev()), seq(64, _ => 102))
  }

  function FrontText(): string {
    "{\"seq\":" + "42" + (",\"ts\":" + Literal(SampleStamp())) + (",\"op\":" + Literal("pull"))
    + (",\"caller_uid\":" + "1000") + (",\"client_asserted\":" + Literal("/sdcard/DCIM/a<b>&c.jpg"))
    + (",\"serial\":" + Literal("R58MA0ABCDE")) + (",\"path_b64\":" + Literal("L3NkY2FyZC9EQ0lNL2E8Yj4mYy5qcGc="))
  }

  /** Its canonical form as a text. */
  function SampleText(): string {
    FrontText() + (",\"decision\":" + Literal("allow")) + (",\"result\":" + Literal("ok")) + (",\"bytes\":" + "1048576")
    + (",\"sha256\":" + Literal(SampleSum()))
    + (",\"volume\":{\"dev\":" + "190") + (",\"ino\":" + "3252")
    + ("},\"prev\":" + Literal(SamplePrev())) + "}"
  }

  /** One more digit of a number. */
  lemma NextDigit(n: int, text: string, d: int, c: string, more: string)
    requires 0 < n && 0 <= d < 10 && Decimal.Nat(n) == Ascii(text) && Ascii(c) == [48 + d] && more == text + c
    ensures Decimal.Nat(n * 10 + d) == Ascii(more)
  {
    hide Ascii;
    assert (n * 10 + d) / 10 == n && (n * 10 + d) % 10 == d;
    AsciiJoins(text, c);
  }

  lemma FirstDigit(d: int, c: string)
    requires 0 <= d < 10 && Ascii(c) == [48 + d]
    ensures Decimal.Nat(d) == Ascii(c)
  {
  }

  lemma Digits()
    ensures Ascii("0") == [48] && Ascii("1") == [49] && Ascii("2") == [50] && Ascii("3") == [51] && Ascii("4") == [52]
    ensures Ascii("5") == [53] && Ascii("6") == [54] && Ascii("7") == [55] && Ascii("8") == [56] && Ascii("9") == [57]
  {
  }

  lemma SampleNumbers()
    ensures Decimal.Int(42) == Ascii("42") && Decimal.Int(1000) == Ascii("1000")
    ensures Decimal.Int(190) == Ascii("190") && Decimal.Int(3252) == Ascii("3252")
  {
    Digits();
    hide Ascii, Decimal.Nat;
    FirstDigit(4, "4");
    NextDigit(4, "4", 2, "2", "42");
    FirstDigit(1, "1");
    NextDigit(1, "1", 0, "0", "10");
    NextDigit(10, "10", 0, "0", "100");
    NextDigit(100, "100", 0, "0", "1000");
    NextDigit(1, "1", 9, "9", "19");
    NextDigit(19, "19", 0, "0", "190");
    FirstDigit(3, "3");
    NextDigit(3, "3", 2, "2", "32");
    NextDigit(32, "32", 5, "5", "325");
    NextDigit(325, "325", 2, "2", "3252");
  }

  lemma MebibyteIs()
    ensures Decimal.Int(1048576) == Ascii("1048576")
  {
    Digits();
    hide Ascii, Decimal.Nat;
    FirstDigit(1, "1");
    NextDigit(1, "1", 0, "0", "10");
    NextDigit(10, "10", 4, "4", "104");
    NextDigit(104, "104", 8, "8", "1048");
    NextDigit(1048, "1048", 5, "5", "10485");
    NextDigit(10485, "10485", 7, "7", "104857");
    NextDigit(104857, "104857", 6, "6", "1048576");
  }

  /** A number with as many digits as are asked for, or one fewer. */
  lemma PaddedIs(n: nat, text: string, out: string)
    requires Decimal.Nat(n) == Ascii(text) && (out == text || out == "0" + text)
    ensures Timestamp.Padded(n, |out|) == Ascii(out)
  {
    if out != text {
      AsciiJoins("0", text);
      assert Decimal.Zeros(1) == Ascii("0");
    }
  }

  lemma SampleDate()
    ensures Timestamp.Padded(2026, 4) == Ascii("2026") && Timestamp.Padded(7, 2) == Ascii("07")
    ensures Timestamp.Padded(30, 2) == Ascii("30")
  {
    Digits();
    hide Ascii, Decimal.Nat, Timestamp.Padded;
    FirstDigit(2, "2");
    NextDigit(2, "2", 0, "0", "20");
    NextDigit(20, "20", 2, "2", "202");
    NextDigit(202, "202", 6, "6", "2026");
    FirstDigit(7, "7");
    FirstDigit(3, "3");
    NextDigit(3, "3", 0, "0", "30");
    PaddedIs(2026, "2026", "2026");
    PaddedIs(7, "7", "07");
    PaddedIs(30, "30", "30");
  }

  lemma SampleClock()
    ensures Timestamp.Padded(16, 2) == Ascii("16") && Timestamp.Padded(52, 2) == Ascii("52")
    ensures Timestamp.Padded(3, 2) == Ascii("03") && Timestamp.Padded(114, 3) == Ascii("114")
  {
    Digits();
    hide Ascii, Decimal.Nat, Timestamp.Padded;
    FirstDigit(1, "1");
    NextDigit(1, "1", 6, "6", "16");
    FirstDigit(5, "5");
    NextDigit(5, "5", 2, "2", "52");
    FirstDigit(3, "3");
    NextDigit(1, "1", 1, "1", "11");
    NextDigit(11, "11", 4, "4", "114");
    PaddedIs(16, "16", "16");
    PaddedIs(52, "52", "52");
    PaddedIs(3, "3", "03");
    PaddedIs(114, "114", "114");
  }

  /** When the sample was recorded, as it is printed. */
  function SampleStamp(): string {
    "2026" + "-" + "07" + "-" + "30" + "T" + "16" + ":" + "52" + ":" + "03" + "." + "114" + "Z"
  }

  lemma Marks()
    ensures Ascii("-") == [45] && Ascii("T") == [84] && Ascii(":") == [58] && Ascii(".") == [46] && Ascii("Z") == [90]
  {
  }

  lemma SampleTime()
    ensures Timestamp.CanonicalTime(SampleMoment()) == Some(Ascii(SampleStamp()))
  {
    SampleDate();
    SampleClock();
    TimeIsWhole();
    Marks();
    StampIsWhole();
    hide Timestamp.Padded, Timestamp.Truncate, Ascii;
    StampJoins();
  }

  lemma StampIsWhole()
    ensures |SampleStamp()| == 24 && Ascii(SampleStamp())[23] == 90
  {
  }

  lemma StampJoins()
    ensures Ascii(SampleStamp()) ==
      Ascii("2026") + Ascii("-") + Ascii("07") + Ascii("-") + Ascii("30") + Ascii("T") + Ascii("16") + Ascii(":")
      + Ascii("52") + Ascii(":") + Ascii("03") + Ascii(".") + Ascii("114") + Ascii("Z")
  {
    hide Ascii;
    var a := "2026" + "-" + "07" + "-" + "30";
    var b := a + "T" + "16" + ":" + "52" + ":" + "03";
    AsciiJoins("2026", "-");
    AsciiJoins("2026" + "-", "07");
    AsciiJoins("2026" + "-" + "07", "-");
    AsciiJoins("2026" + "-" + "07" + "-", "30");
    AsciiJoins(a, "T");
    AsciiJoins(a + "T", "16");
    AsciiJoins(a + "T" + "16", ":");
    AsciiJoins(a + "T" + "16" + ":", "52");
    AsciiJoins(a + "T" + "16" + ":" + "52", ":");
    AsciiJoins(a + "T" + "16" + ":" + "52" + ":", "03");
    AsciiJoins(b, ".");
    AsciiJoins(b + ".", "114");
    AsciiJoins(b + "." + "114", "Z");
  }

  lemma TimeIsWhole()
    ensures Timestamp.Truncate(SampleMoment()) == SampleMoment() && SampleMoment().nanos / 1_000_000 == 114
  {
    WholeMillis(114);
  }

  lemma WholeMillis(n: nat)
    ensures n * 1_000_000 % 1_000_000 == 0 && n * 1_000_000 / 1_000_000 == n
  {
  }

  lemma PlainNames()
    ensures IsPlain("pull") && IsPlain("R58MA0ABCDE") && IsPlain("allow") && IsPlain("ok")
  {
  }

  lemma PlainStamp()
    ensures IsPlain(SampleStamp())
  {
  }

  lemma PlainPath()
    ensures IsPlain("/sdcard/DCIM/a<b>&c.jpg")
  {
  }

  lemma PlainBase64()
    ensures IsPlain("L3NkY2FyZC9EQ0lNL2E8Yj4mYy5qcGc=")
  {
  }

  lemma PlainSum()
    ensures IsPlain(SampleSum())
  {
  }

  lemma PlainPrev()
    ensures IsPlain(SamplePrev())
  {
  }

  lemma SampleFront()
    ensures FlatFront(Sample(), Ascii(SampleStamp())) == Ascii(FrontText())
  {
    hide Ascii, Literal, Num, Str, Decimal.Int, IsPlain, SampleStamp;
    PlainNames();
    PlainStamp();
    PlainPath();
    PlainBase64();
    SampleNumbers();
    NumIs("{\"seq\":", 42, "42");
    StrIs(",\"ts\":", SampleStamp());
    StrIs(",\"op\":", "pull");
    NumIs(",\"caller_uid\":", 1000, "1000");
    StrIs(",\"client_asserted\":", "/sdcard/DCIM/a<b>&c.jpg");
    StrIs(",\"serial\":", "R58MA0ABCDE");
    StrIs(",\"path_b64\":", "L3NkY2FyZC9EQ0lNL2E8Yj4mYy5qcGc=");
    var a := "{\"seq\":" + "42";
    var b := ",\"ts\":" + Literal(SampleStamp());
    var c := ",\"op\":" + Literal("pull");
    var d := ",\"caller_uid\":" + "1000";
    var e := ",\"client_asserted\":" + Literal("/sdcard/DCIM/a<b>&c.jpg");
    var f := ",\"serial\":" + Literal("R58MA0ABCDE");
    var g := ",\"path_b64\":" + Literal("L3NkY2FyZC9EQ0lNL2E8Yj4mYy5qcGc=");
    AsciiJoins(a, b);
    AsciiJoins(a + b, c);
    AsciiJoins(a + b + c, d);
    AsciiJoins(a + b + c + d, e);
    AsciiJoins(a + b + c + d + e, f);
    AsciiJoins(a + b + c + d + e + f, g);
  }

  /** The canonical form of that record is that text, byte for byte; its hash is not part of it. */
  lemma SampleIsCanonical()
    ensures CanonicalForm(Sample()) == Some(Ascii(SampleText()))
  {
    hide Ascii, Literal, Num, Str, Decimal.Int, IsPlain, SampleSum, SamplePrev, SampleStamp, SampleMoment, FlatFront,
         FrontText, Timestamp.CanonicalTime, CanonicalForm;
    CanonicalIsFlat(Sample());
    SampleTime();
    SampleFront();
    PlainNames();
    PlainSum();
    PlainPrev();
    SampleNumbers();
    MebibyteIs();
    StrIs(",\"decision\":", "allow");
    StrIs(",\"result\":", "ok");
    NumIs(",\"bytes\":", 1048576, "1048576");
    StrIs(",\"sha256\":", SampleSum());
    NumIs(",\"volume\":{\"dev\":", 190, "190");
    NumIs(",\"ino\":", 3252, "3252");
    StrIs("},\"prev\":", SamplePrev());
    var h := FrontText();
    var i := ",\"decision\":" + Literal("allow");
    var j := ",\"result\":" + Literal("ok");
    var k := ",\"bytes\":" + "1048576";
    var l := ",\"sha256\":" + Literal(SampleSum());
    var m := ",\"volume\":{\"dev\":" + "190";
    var n := ",\"ino\":" + "3252";
    var o := "},\"prev\":" + Literal(SamplePrev());
    AsciiJoins(h, i);
    AsciiJoins(h + i, j);
    AsciiJoins(h + i + j, k);
    AsciiJoins(h + i + j + k, l);
    AsciiJoins(h + i + j + k + l, m);
    AsciiJoins(h + i + j + k + l + m, n);
    AsciiJoins(h + i + j + k + l + m + n, o);
    AsciiJoins(h + i + j + k + l + m + n + o, "}");
  }
}
