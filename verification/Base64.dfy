/** The URL-safe base64 alphabet with padding (section 5 of RFC 4648). A string stands for its bytes: every
    character is below 256. */
module Base64 {
  import opened Wrappers

  predicate IsBytes(s: string) {
    forall i :: 0 <= i < |s| ==> s[i] as int < 256
  }

  const ALPHABET := "ABCDEFGHIJKLMNOPQRSTUVWXYZ" + "abcdefghijklmnopqrstuvwxyz" + "0123456789" + "-_"

  function Sextet(n: int): (c: char)
    requires 0 <= n < 64
    ensures c != '=' && c != '\r' && c != '\n'
    ensures Value(c) == Some(n)
  {
    if n < 26 then 'A' + n as char
    else if n < 52 then 'a' + (n - 26) as char
    else if n < 62 then '0' + (n - 52) as char
    else if n == 62 then '-' else '_'
  }

  function Value(c: char): (r: Option<int>)
    ensures r.Some? ==> 0 <= r.value < 64
  {
    if 'A' <= c <= 'Z' then Some(c as int - 'A' as int)
    else if 'a' <= c <= 'z' then Some(c as int - 'a' as int + 26)
    else if '0' <= c <= '9' then Some(c as int - '0' as int + 52)
    else if c == '-' then Some(62)
    else if c == '_' then Some(63)
    else None
  }

  /** One, two or three bytes as a group of four characters. */
  function EncodeGroup(s: string): (r: string)
    requires 1 <= |s| <= 3 && IsBytes(s)
    ensures |r| == 4
  {
    var a := s[0] as int;
    var b := if |s| > 1 then s[1] as int else 0;
    var c := if |s| > 2 then s[2] as int else 0;
    [Sextet(a / 4), Sextet(a % 4 * 16 + b / 16),
     if |s| > 1 then Sextet(b % 16 * 4 + c / 64) else '=',
     if |s| > 2 then Sextet(c % 64) else '=']
  }

  function Encode(s: string): string
    requires IsBytes(s)
  {
    if s == "" then ""
    else if |s| <= 3 then EncodeGroup(s)
    else EncodeGroup(s[..3]) + Encode(s[3..])
  }

  function StripNewlines(s: string): string {
    if s == "" then "" else (if s[0] in "\r\n" then "" else [s[0]]) + StripNewlines(s[1..])
  }

  /** Padding may only end the last group; the bits it leaves unused are ignored. */
  function DecodeGroup(g: string, last: bool): Option<string>
    requires |g| == 4
  {
    match (Value(g[0]), Value(g[1]))
    case (Some(a), Some(b)) =>
      var x := (a * 4 + b / 16) as char;
      if g[2] == '=' then if last && g[3] == '=' then Some([x]) else None
      else (match Value(g[2])
            case None => None
            case Some(c) =>
              var y := (b % 16 * 16 + c / 4) as char;
              if g[3] == '=' then if last then Some([x, y]) else None
              else (match Value(g[3])
                    case None => None
                    case Some(d) => Some([x, y, (c % 4 * 64 + d) as char])))
    case _ => None
  }

  function DecodeGroups(s: string): Option<string> {
    if s == "" then Some("")
    else if |s| < 4 then None
    else match (DecodeGroup(s[..4], |s| == 4), DecodeGroups(s[4..]))
         case (Some(x), Some(rest)) => Some(x + rest)
         case _ => None
  }

  /** Line breaks anywhere in the input are skipped. */
  function Decode(s: string): Option<string> {
    DecodeGroups(StripNewlines(s))
  }

  lemma GroupRoundTrip(s: string, last: bool)
    requires 1 <= |s| <= 3 && IsBytes(s) && (last || |s| == 3)
    ensures DecodeGroup(EncodeGroup(s), last) == Some(s)
  {
    hide Sextet, Value;
    var a := s[0] as int;
    var b := if |s| > 1 then s[1] as int else 0;
    var c := if |s| > 2 then s[2] as int else 0;
    Repacked(a, b, c);
    assert |s| == 1 ==> s == [s[0]];
    assert |s| == 2 ==> s == [s[0], s[1]];
    assert |s| == 3 ==> s == [s[0], s[1], s[2]];
  }

  /** Cutting 24 bits into four sixes and back into three eights. */
  lemma Repacked(a: int, b: int, c: int)
    requires 0 <= a < 256 && 0 <= b < 256 && 0 <= c < 256
    ensures a / 4 * 4 + (a % 4 * 16 + b / 16) / 16 == a
    ensures (a % 4 * 16 + b / 16) % 16 * 16 + (b % 16 * 4 + c / 64) / 4 == b
    ensures (b % 16 * 4 + c / 64) % 4 * 64 + c % 64 == c
  {
  }

  lemma {:induction false} GroupsRoundTrip(s: string)
    requires IsBytes(s)
    ensures DecodeGroups(Encode(s)) == Some(s)
  {
    if s == "" {
    } else if |s| <= 3 {
      GroupRoundTrip(s, true);
      var e := Encode(s);
      assert e[..4] == e && e[4..] == "";
      assert DecodeGroups(e[4..]) == Some("");
      assert s + "" == s;
    } else {
      var g := EncodeGroup(s[..3]);
      assert Encode(s)[..4] == g && Encode(s)[4..] == Encode(s[3..]);
      GroupRoundTrip(s[..3], false);
      GroupsRoundTrip(s[3..]);
      assert Encode(s[3..]) != "";
      assert s == s[..3] + s[3..];
    }
  }

  lemma {:induction false} NothingToStrip(s: string)
    requires '\r' !in s && '\n' !in s
    ensures StripNewlines(s) == s
  {
    if s != "" {
      NothingToStrip(s[1..]);
    }
  }

  lemma {:induction false} NoNewlines(s: string)
    requires IsBytes(s)
    ensures '\r' !in Encode(s) && '\n' !in Encode(s)
  {
    if |s| > 3 {
      NoNewlines(s[3..]);
    }
  }

  /** Decoding gives back every byte string that was encoded. */
  lemma RoundTrip(s: string)
    requires IsBytes(s)
    ensures Decode(Encode(s)) == Some(s)
  {
    NoNewlines(s);
    NothingToStrip(Encode(s));
    GroupsRoundTrip(s);
  }

  /** The examples of section 10 of RFC 4648. */
  lemma Examples()
    ensures Encode("f") == "Zg==" && Encode("fo") == "Zm8=" && Encode("foo") == "Zm9v"
    ensures Encode("foob") == "Zm9vYg==" && Encode("fooba") == "Zm9vYmE=" && Encode("foobar") == "Zm9vYmFy"
  {
    ExampleGroups();
    hide EncodeGroup;
    assert "foob"[..3] == "foo" && "foob"[3..] == "b";
    assert "fooba"[..3] == "foo" && "fooba"[3..] == "ba";
    assert "foobar"[..3] == "foo" && "foobar"[3..] == "bar";
  }

  lemma ExampleGroups()
    ensures EncodeGroup("f") == "Zg==" && EncodeGroup("fo") == "Zm8=" && EncodeGroup("foo") == "Zm9v"
    ensures EncodeGroup("b") == "Yg==" && EncodeGroup("ba") == "YmE=" && EncodeGroup("bar") == "YmFy"
  {
    FirstExampleGroups();
    assert 'b' as int == 98 && 'a' as int == 97 && 'r' as int == 114;
  }

  lemma FirstExampleGroups()
    ensures EncodeGroup("f") == "Zg==" && EncodeGroup("fo") == "Zm8=" && EncodeGroup("foo") == "Zm9v"
  {
    assert 'f' as int == 102 && 'o' as int == 111;
  }

  /** The letters stand for the numbers in the order of the alphabet. */
  lemma AlphabetInOrder(n: nat)
    requires n < 64
    ensures Sextet(n) == ALPHABET[n]
  {
    var capitals, small, digits := "ABCDEFGHIJKLMNOPQRSTUVWXYZ", "abcdefghijklmnopqrstuvwxyz", "0123456789";
    assert n < 26 ==> ALPHABET[n] == capitals[n];
    assert 26 <= n < 52 ==> ALPHABET[n] == small[n - 26];
    assert 52 <= n < 62 ==> ALPHABET[n] == digits[n - 52];
    LettersInOrder(n);
  }

  lemma LettersInOrder(n: nat)
    ensures n < 26 ==> "ABCDEFGHIJKLMNOPQRSTUVWXYZ"[n] == 'A' + n as char
    ensures 26 <= n < 52 ==> "abcdefghijklmnopqrstuvwxyz"[n - 26] == 'a' + (n - 26) as char
    ensures 52 <= n < 62 ==> "0123456789"[n - 52] == '0' + (n - 52) as char
  {
  }

  /** What decodes to nothing is nothing but line breaks. */
  lemma {:induction false} EmptyExactly(s: string)
    ensures Decode(s) == Some("") <==> forall c :: c in s ==> c in "\r\n"
  {
    StrippedAwayExactly(s);
  }

  lemma {:induction false} StrippedAwayExactly(s: string)
    ensures StripNewlines(s) == "" <==> forall c :: c in s ==> c in "\r\n"
  {
    if s != "" {
      StrippedAwayExactly(s[1..]);
      assert s[0] in s;
      assert forall c :: c in s ==> c == s[0] || c in s[1..];
    }
  }
}
