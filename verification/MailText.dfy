/** Printing raw messages: header lines, an empty line, the body; and what reading them back recovers. */
module MailText {
  import opened Wrappers
  import opened Text
  import opened Base64

  datatype Header = Header(name: string, value: string)

  datatype Parsed = Parsed(headers: seq<Header>, body: string)

  const CRLF := "\r\n"

  // ---------- The sending handlers ----------

  datatype SendRequest = SendRequest(to: seq<string>, cc: seq<string>, bcc: seq<string>, subject: string, body: string,
      isHtml: bool)

  function RawMessage(r: SendRequest): string {
    var contentType := if r.isHtml then "text/html" else "text/plain";
    var cc := if r.cc != [] then "Cc: " + Join(r.cc, ",") + "\r\n" else "";
    var bcc := if r.bcc != [] then "Bcc: " + Join(r.bcc, ",") + "\r\n" else "";
    ("To: " + Join(r.to, ",") + "\r\n") + cc + bcc + ("Subject: " + r.subject + "\r\n") +
    ("Content-Type: " + contentType + "; charset=UTF-8\r\n") + "\r\n" + r.body
  }

  // ---------- The auto-reply ----------

  function GetHeader(headers: seq<Header>, name: string): Option<string> {
    if headers == [] then None
    else if headers[0].name == name then Some(headers[0].value)
    else GetHeader(headers[1..], name)
  }

  /** The first header of that name has this value. */
  ghost predicate FirstValue(headers: seq<Header>, name: string, value: string) {
    exists i | 0 <= i < |headers| ::
      headers[i] == Header(name, value) && forall k | 0 <= k < i :: headers[k].name != name
  }

  lemma {:induction false} HeaderIsFirst(headers: seq<Header>, name: string, value: string)
    ensures GetHeader(headers, name) == Some(value) <==> FirstValue(headers, name, value)
    ensures GetHeader(headers, name).None? <==> forall h :: h in headers ==> h.name != name
  {
    if headers != [] {
      HeaderIsFirst(headers[1..], name, value);
      if headers[0].name != name {
        if FirstValue(headers, name, value) {
          var i :| 0 <= i < |headers| && headers[i] == Header(name, value) &&
                   forall k | 0 <= k < i :: headers[k].name != name;
          assert headers[1..][i - 1] == headers[i];
        }
        if FirstValue(headers[1..], name, value) {
          var rest := headers[1..];
          var i :| 0 <= i < |rest| && rest[i] == Header(name, value) && forall k | 0 <= k < i :: rest[k].name != name;
          assert headers[i + 1] == rest[i];
        }
      }
    }
  }

  function ReplySubject(subject: Option<string>): string {
    match subject
    case None => "Re:"
    case Some(s) => if "Re:" <= s then s else "Re: " + s
  }

  /** The reply to a message with these headers. Without a From header the program crashes (None). */
  function ReplyRaw(headers: seq<Header>, text: string, fromEmail: string): Option<string> {
    match GetHeader(headers, "From")
    case None => None
    case Some(to) =>
      var start := ("To: " + to + "\r\n") + ("From: " + fromEmail + "\r\n") +
                   ("Subject: " + ReplySubject(GetHeader(headers, "Subject")) + "\r\n");
      var references := match GetHeader(headers, "Message-ID")
                        case None => ""
                        case Some(id) => ("References: " + id + "\r\n") + ("In-Reply-To: " + id + "\r\n");
      Some(start + references + "Content-Type: text/plain; charset=UTF-8\r\n" + "\r\n" + text)
  }

  // ---------- Reading a message (sections 2.1 and 2.2 of RFC 5322) ----------

  /** Where the first line ends, if it does. */
  function LineEnd(s: string): (r: Option<nat>)
    ensures r.Some? ==> r.value + 2 <= |s| && s[r.value..r.value + 2] == CRLF
  {
    if |s| < 2 then None
    else if s[..2] == CRLF then Some(0)
    else match LineEnd(s[1..])
         case None => None
         case Some(n) => Some(n + 1)
  }

  function NameEnd(line: string): (r: Option<nat>)
    ensures r.Some? ==> r.value < |line|
  {
    if line == "" then None
    else if line[0] == ':' then Some(0)
    else match NameEnd(line[1..])
         case None => None
         case Some(n) => Some(n + 1)
  }

  function ParseHeader(line: string): Option<Header> {
    match NameEnd(line)
    case None => None
    case Some(n) =>
      var rest := line[n + 1..];
      Some(Header(line[..n], if " " <= rest then rest[1..] else rest))
  }

  /** Header lines up to the first empty line; everything after that is the body. */
  function ParseMessage(s: string): Option<Parsed>
    decreases |s|
  {
    match LineEnd(s)
    case None => None
    case Some(n) =>
      if n == 0 then Some(Parsed([], s[2..]))
      else match (ParseHeader(s[..n]), ParseMessage(s[n + 2..]))
           case (Some(h), Some(p)) => Some(Parsed([h] + p.headers, p.body))
           case _ => None
  }

  // ---------- Printing and parsing ----------

  function PrintHeaders(headers: seq<Header>): string {
    if headers == [] then "" else headers[0].name + ": " + headers[0].value + CRLF + PrintHeaders(headers[1..])
  }

  function Print(headers: seq<Header>, body: string): string {
    PrintHeaders(headers) + CRLF + body
  }

  predicate OneLine(s: string) {
    LineEnd(s).None?
  }

  predicate PlainName(name: string) {
    name != "" && ':' !in name && '\r' !in name
  }

  lemma {:induction false} LineEndAt(line: string, rest: string)
    ensures OneLine(line) ==> LineEnd(line + CRLF + rest) == Some(|line|)
    ensures !OneLine(line) ==> LineEnd(line + CRLF + rest) == LineEnd(line)
  {
    var s := line + CRLF + rest;
    if line == "" {
      assert s[..2] == CRLF;
    } else {
      assert s[1..] == line[1..] + CRLF + rest;
      LineEndAt(line[1..], rest);
      if |line| >= 2 {
        assert s[..2] == line[..2];
      } else {
        assert s[1] == '\r';
        assert LineEnd("").None?;
        assert line[1..] == "";
      }
    }
  }

  lemma {:induction false} NameEndAt(name: string, rest: string)
    requires ':' !in name
    ensures NameEnd(name + ":" + rest) == Some(|name|)
  {
    if name != "" {
      assert (name + ":" + rest)[1..] == name[1..] + ":" + rest;
      NameEndAt(name[1..], rest);
    }
  }

  /** A name without a carriage return does not move the end of the line. */
  lemma {:induction false} LineEndAfterName(name: string, value: string)
    requires '\r' !in name
    ensures LineEnd(name + value).None? <==> LineEnd(value).None?
    ensures LineEnd(value).Some? ==> LineEnd(name + value) == Some(|name| + LineEnd(value).value)
  {
    if name == "" {
      assert name + value == value;
    } else {
      var s := name + value;
      assert s[1..] == name[1..] + value;
      LineEndAfterName(name[1..], value);
      assert s[0] == name[0] != '\r';
      if |s| >= 2 {
        assert s[..2][0] != CRLF[0];
      }
    }
  }

  lemma HeaderReadsBack(h: Header)
    requires PlainName(h.name)
    ensures ParseHeader(h.name + ": " + h.value) == Some(h)
  {
    var line := h.name + ": " + h.value;
    assert line == h.name + ":" + (" " + h.value);
    NameEndAt(h.name, " " + h.value);
    assert line[..|h.name|] == h.name;
    var rest := line[|h.name| + 1..];
    assert rest == " " + h.value;
    assert rest[1..] == h.value;
  }

  lemma PrefixCut(x: string, v: string, z: string, k: nat)
    requires k <= |v|
    ensures (x + v + z)[..|x| + k] == x + v[..k]
  {
  }

  /** A value with a line break in it is cut there. */
  lemma FirstValueCut(headers: seq<Header>, body: string)
    requires headers != [] && PlainName(headers[0].name) && !OneLine(headers[0].value)
    ensures var p := ParseMessage(Print(headers, body));
            p.Some? ==> p.value.headers != [] && p.value.headers[0] != headers[0]
  {
    hide ParseMessage, LineEnd, PlainName;
    var h, tail := headers[0], Print(headers[1..], body);
    var start, v := h.name + ": ", h.value;
    var k := LineEnd(v).value;
    var s := Print(headers, body);
    FirstLine(headers, body);
    NoReturnInStart(h.name);
    LineEndAt(start + v, tail);
    LineEndAfterName(start, v);
    PrefixCut(start, v, CRLF + tail, k);
    CutHeader(s, h, k);
  }

  lemma NoReturnInStart(name: string)
    requires PlainName(name)
    ensures '\r' !in name + ": "
  {
  }

  lemma FirstLine(headers: seq<Header>, body: string)
    requires headers != []
    ensures var start, v, tail := headers[0].name + ": ", headers[0].value, Print(headers[1..], body);
            Print(headers, body) == start + v + CRLF + tail == start + v + (CRLF + tail)
  {
  }

  lemma CutHeader(s: string, h: Header, k: nat)
    requires PlainName(h.name) && k < |h.value|
    requires LineEnd(s) == Some(|h.name| + 2 + k) && s[..|h.name| + 2 + k] == h.name + ": " + h.value[..k]
    ensures ParseMessage(s).Some? ==> ParseMessage(s).value.headers != [] && ParseMessage(s).value.headers[0] != h
  {
    HeaderReadsBack(Header(h.name, h.value[..k]));
    assert |h.value[..k]| < |h.value|;
  }

  /** A value on one line is read whole, and reading goes on behind it. */
  lemma FirstValueWhole(headers: seq<Header>, body: string)
    requires headers != [] && PlainName(headers[0].name) && OneLine(headers[0].value)
    ensures ParseMessage(Print(headers, body)) ==
            match ParseMessage(Print(headers[1..], body)) {
              case None => None
              case Some(p) => Some(Parsed([headers[0]] + p.headers, p.body))
            }
  {
    var h, tail := headers[0], Print(headers[1..], body);
    var line, s := h.name + ": " + h.value, Print(headers, body);
    FirstLine(headers, body);
    NoReturnInStart(h.name);
    LineEndAfterName(h.name + ": ", h.value);
    LineEndAt(line, tail);
    HeaderReadsBack(h);
    hide LineEnd, ParseHeader, PlainName, Print;
    assert s[..|line|] == line && s[|line| + 2..] == tail;
  }

  lemma BodyAloneReadsBack(body: string)
    ensures ParseMessage(Print([], body)) == Some(Parsed([], body))
  {
    assert Print([], body)[..2] == CRLF && Print([], body)[2..] == body;
  }

  lemma ConsSame<T>(x: T, a: seq<T>, b: seq<T>)
    ensures [x] + a == [x] + b <==> a == b
  {
    if [x] + a == [x] + b {
      assert a == ([x] + a)[1..] == ([x] + b)[1..] == b;
    }
  }

  /** Parsing what was printed gives back the headers and the body, whatever the body contains, exactly when
      every header value is a single line. */
  lemma {:induction false} PrintReadsBackExactly(headers: seq<Header>, body: string)
    requires forall h :: h in headers ==> PlainName(h.name)
    ensures ParseMessage(Print(headers, body)) == Some(Parsed(headers, body)) <==>
            forall h :: h in headers ==> OneLine(h.value)
    decreases headers
  {
    hide ParseMessage, Print, OneLine, PlainName;
    if headers == [] {
      BodyAloneReadsBack(body);
    } else {
      var h, rest := headers[0], headers[1..];
      PrintReadsBackExactly(rest, body);
      assert forall x :: x in headers <==> x == h || x in rest;
      var p := ParseMessage(Print(rest, body));
      assert p.Some? ==> ([h] + p.value.headers == [h] + rest <==> p.value.headers == rest) by {
        ConsSame(h, if p.Some? then p.value.headers else [], rest);
      }
      assert [h] + rest == headers;
      if OneLine(h.value) {
        FirstValueWhole(headers, body);
      } else {
        FirstValueCut(headers, body);
      }
    }
  }

  // ---------- Results ----------

  function ContentType(isHtml: bool): string {
    (if isHtml then "text/html" else "text/plain") + "; charset=UTF-8"
  }

  function SendHeaders(r: SendRequest): seq<Header> {
    [Header("To", Join(r.to, ","))] +
    (if r.cc != [] then [Header("Cc", Join(r.cc, ","))] else []) +
    (if r.bcc != [] then [Header("Bcc", Join(r.bcc, ","))] else []) +
    [Header("Subject", r.subject)] + [Header("Content-Type", ContentType(r.isHtml))]
  }

  lemma {:induction false} PrintAppend(a: seq<Header>, b: seq<Header>)
    ensures PrintHeaders(a + b) == PrintHeaders(a) + PrintHeaders(b)
  {
    if a == [] {
      assert a + b == b;
    } else {
      assert (a + b)[1..] == a[1..] + b;
      PrintAppend(a[1..], b);
    }
  }

  lemma PrintOne(h: Header)
    ensures PrintHeaders([h]) == h.name + ": " + h.value + "\r\n"
  {
    assert PrintHeaders([h]) == h.name + ": " + h.value + CRLF + "";
  }

  lemma PrintFive(a: seq<Header>, b: seq<Header>, c: seq<Header>, d: seq<Header>, e: seq<Header>)
    ensures PrintHeaders(a + b + c + d + e) ==
            PrintHeaders(a) + PrintHeaders(b) + PrintHeaders(c) + PrintHeaders(d) + PrintHeaders(e)
  {
    hide PrintHeaders;
    PrintAppend(a, b);
    PrintAppend(a + b, c);
    PrintAppend(a + b + c, d);
    PrintAppend(a + b + c + d, e);
  }

  lemma ContentTypeLine(isHtml: bool)
    ensures PrintHeaders([Header("Content-Type", ContentType(isHtml))]) ==
            "Content-Type: " + (if isHtml then "text/html" else "text/plain") + "; charset=UTF-8\r\n"
  {
    PrintOne(Header("Content-Type", ContentType(isHtml)));
  }

  lemma RawMessageIsPrinted(r: SendRequest)
    ensures RawMessage(r) == Print(SendHeaders(r), r.body)
  {
    hide PrintHeaders, ContentType, Join;
    var to, cc, bcc := Header("To", Join(r.to, ",")), Header("Cc", Join(r.cc, ",")), Header("Bcc", Join(r.bcc, ","));
    var subject, contentType := Header("Subject", r.subject), Header("Content-Type", ContentType(r.isHtml));
    PrintFive([to], if r.cc != [] then [cc] else [], if r.bcc != [] then [bcc] else [], [subject], [contentType]);
    PrintOne(to);
    PrintOne(cc);
    PrintOne(bcc);
    PrintOne(subject);
    PrintNone();
    ContentTypeLine(r.isHtml);
    assert "To" + ": " == "To: " && "Cc" + ": " == "Cc: " && "Bcc" + ": " == "Bcc: " && "Subject" + ": " == "Subject: ";
  }

  lemma PrintNone()
    ensures PrintHeaders([]) == ""
  {
  }

  lemma ContentTypeIsOneLine(isHtml: bool)
    ensures OneLine(ContentType(isHtml))
  {
    NoReturnNoBreak(ContentType(isHtml));
  }

  lemma NoReturnNoBreak(s: string)
    requires '\r' !in s
    ensures OneLine(s)
  {
    LineEndAfterName(s, "");
    assert s + "" == s;
  }

  lemma HeaderNamesArePlain()
    ensures PlainName("To") && PlainName("Cc") && PlainName("Bcc") && PlainName("Subject") && PlainName("Content-Type")
    ensures PlainName("From") && PlainName("References") && PlainName("In-Reply-To")
  {
  }

  lemma SendHeadersAre(r: SendRequest, h: Header)
    ensures h in SendHeaders(r) <==>
            || h == Header("To", Join(r.to, ","))
            || (r.cc != [] && h == Header("Cc", Join(r.cc, ",")))
            || (r.bcc != [] && h == Header("Bcc", Join(r.bcc, ",")))
            || h == Header("Subject", r.subject)
            || h == Header("Content-Type", ContentType(r.isHtml))
  {
    hide Join, ContentType;
  }

  lemma SendHeadersOneLine(r: SendRequest)
    ensures (forall h :: h in SendHeaders(r) ==> OneLine(h.value)) <==>
            OneLine(Join(r.to, ",")) && OneLine(Join(r.cc, ",")) && OneLine(Join(r.bcc, ",")) && OneLine(r.subject)
    ensures forall h :: h in SendHeaders(r) ==> PlainName(h.name)
  {
    NoReturnNoBreak("");
    ContentTypeIsOneLine(r.isHtml);
    HeaderNamesArePlain();
    hide OneLine, ContentType, SendHeaders, PlainName;
    SendHeadersAre(r, Header("To", Join(r.to, ",")));
    SendHeadersAre(r, Header("Cc", Join(r.cc, ",")));
    SendHeadersAre(r, Header("Bcc", Join(r.bcc, ",")));
    SendHeadersAre(r, Header("Subject", r.subject));
    forall h | h in SendHeaders(r) ensures PlainName(h.name) {
      SendHeadersAre(r, h);
    }
    if OneLine(Join(r.to, ",")) && OneLine(Join(r.cc, ",")) && OneLine(Join(r.bcc, ",")) && OneLine(r.subject) {
      forall h | h in SendHeaders(r) ensures OneLine(h.value) {
        SendHeadersAre(r, h);
      }
    }
  }

  /** A sent message or draft carries its recipients, subject, content type and body back, whatever the body is,
      exactly when recipients and subject hold no line break. */
  lemma SentMessageReadsBackExactly(r: SendRequest)
    ensures ParseMessage(RawMessage(r)) == Some(Parsed(SendHeaders(r), r.body)) <==>
            OneLine(Join(r.to, ",")) && OneLine(Join(r.cc, ",")) && OneLine(Join(r.bcc, ",")) && OneLine(r.subject)
  {
    hide RawMessage, SendHeaders, LineEnd, ParseMessage, Print;
    RawMessageIsPrinted(r);
    SendHeadersOneLine(r);
    PrintReadsBackExactly(SendHeaders(r), r.body);
  }

  /** Through the encoding the provider is handed, too. */
  lemma EncodedMessageReadsBack(r: SendRequest)
    requires IsBytes(RawMessage(r))
    ensures Decode(Encode(RawMessage(r))).Some?
    ensures ParseMessage(Decode(Encode(RawMessage(r))).value) == Some(Parsed(SendHeaders(r), r.body)) <==>
            OneLine(Join(r.to, ",")) && OneLine(Join(r.cc, ",")) && OneLine(Join(r.bcc, ",")) && OneLine(r.subject)
  {
    RoundTrip(RawMessage(r));
    SentMessageReadsBackExactly(r);
  }

  function ReplyHeaders(headers: seq<Header>, to: string, fromEmail: string): seq<Header> {
    [Header("To", to)] + [Header("From", fromEmail)] +
        [Header("Subject", ReplySubject(GetHeader(headers, "Subject")))] +
    (match GetHeader(headers, "Message-ID")
     case None => []
     case Some(id) => [Header("References", id)] + [Header("In-Reply-To", id)]) +
    [Header("Content-Type", ContentType(false))]
  }

  predicate OneLineIfAny(value: Option<string>) {
    value.Some? ==> OneLine(value.value)
  }

  /** A reply exists exactly when the original names a sender. It threads on the original's id, and reading it back
      recovers every header and the text exactly when the values it takes over (sender, subject, id, and the address
      replied from) hold no line break; what the other headers of the original hold does not matter. */
  lemma ReplyReadsBack(headers: seq<Header>, text: string, fromEmail: string)
    ensures ReplyRaw(headers, text, fromEmail).None? <==> GetHeader(headers, "From").None?
    ensures forall to :: GetHeader(headers, "From") == Some(to) ==>
              (ParseMessage(ReplyRaw(headers, text, fromEmail).value) ==
                  Some(Parsed(ReplyHeaders(headers, to, fromEmail), text))
               <==> ReplyFits(headers, to, fromEmail))
  {
    hide ReplyFits, ReplyHeaders;
    if GetHeader(headers, "From").Some? {
      var to := GetHeader(headers, "From").value;
      var hs := ReplyHeaders(headers, to, fromEmail);
      ReplyIsPrinted(headers, text, fromEmail);
      ReplyValuesOneLine(headers, to, fromEmail);
      PrintReadsBackExactly(hs, text);
    }
  }

  predicate ReplyFits(headers: seq<Header>, to: string, fromEmail: string) {
    OneLine(to) && OneLine(fromEmail) && OneLineIfAny(GetHeader(headers, "Subject")) &&
        OneLineIfAny(GetHeader(headers, "Message-ID"))
  }

  lemma ReplyIsPrinted(headers: seq<Header>, text: string, fromEmail: string)
    requires GetHeader(headers, "From").Some?
    ensures ReplyRaw(headers, text, fromEmail) ==
            Some(Print(ReplyHeaders(headers, GetHeader(headers, "From").value, fromEmail), text))
  {
    hide PrintHeaders, GetHeader, ReplySubject, ContentType;
    var a, b := Header("To", GetHeader(headers, "From").value), Header("From", fromEmail);
    var c, t := Header("Subject", ReplySubject(GetHeader(headers, "Subject"))),
        Header("Content-Type", ContentType(false));
    PrintOne(a);
    PrintOne(b);
    PrintOne(c);
    ContentTypeLine(false);
    assert "Content-Type: " + "text/plain" + "; charset=UTF-8\r\n" == "Content-Type: text/plain; charset=UTF-8\r\n";
    assert "To" + ": " == "To: " && "From" + ": " == "From: " && "Subject" + ": " == "Subject: ";
    match GetHeader(headers, "Message-ID")
    case None =>
      PrintFive([a], [b], [c], [], [t]);
      PrintNone();
    case Some(id) =>
      var d, e := Header("References", id), Header("In-Reply-To", id);
      PrintFive([a], [b], [c], [d] + [e], [t]);
      PrintAppend([d], [e]);
      PrintOne(d);
      PrintOne(e);
      assert "References" + ": " == "References: " && "In-Reply-To" + ": " == "In-Reply-To: ";
  }

  lemma ReplySubjectOneLine(subject: Option<string>)
    ensures OneLine(ReplySubject(subject)) <==> OneLineIfAny(subject)
  {
    match subject
    case None => NoReturnNoBreak("Re:");
    case Some(s) => LineEndAfterName("Re: ", s);
  }

  lemma ReplyHeadersAre(headers: seq<Header>, to: string, fromEmail: string, h: Header)
    ensures h in ReplyHeaders(headers, to, fromEmail) <==>
            || h == Header("To", to) || h == Header("From", fromEmail)
            || h == Header("Subject", ReplySubject(GetHeader(headers, "Subject")))
            || (GetHeader(headers, "Message-ID").Some? &&
                h == Header("References", GetHeader(headers, "Message-ID").value))
            || (GetHeader(headers, "Message-ID").Some? &&
                h == Header("In-Reply-To", GetHeader(headers, "Message-ID").value))
            || h == Header("Content-Type", ContentType(false))
  {
    hide ContentType, ReplySubject, GetHeader;
  }

  lemma ReplyValuesOneLine(headers: seq<Header>, to: string, fromEmail: string)
    ensures (forall h :: h in ReplyHeaders(headers, to, fromEmail) ==> OneLine(h.value)) <==>
            ReplyFits(headers, to, fromEmail)
    ensures forall h :: h in ReplyHeaders(headers, to, fromEmail) ==> PlainName(h.name)
  {
    hide OneLine, ContentType, ReplySubject, GetHeader, PlainName, ReplyHeaders;
    var subject, id := GetHeader(headers, "Subject"), GetHeader(headers, "Message-ID");
    ContentTypeIsOneLine(false);
    HeaderNamesArePlain();
    ReplySubjectOneLine(subject);
    ReplyHeadersAre(headers, to, fromEmail, Header("To", to));
    ReplyHeadersAre(headers, to, fromEmail, Header("From", fromEmail));
    ReplyHeadersAre(headers, to, fromEmail, Header("Subject", ReplySubject(subject)));
    if id.Some? {
      ReplyHeadersAre(headers, to, fromEmail, Header("References", id.value));
    }
    forall h | h in ReplyHeaders(headers, to, fromEmail)
      ensures PlainName(h.name) && (ReplyFits(headers, to, fromEmail) ==> OneLine(h.value))
    {
      ReplyHeadersAre(headers, to, fromEmail, h);
    }
  }

  /** Replying to a reply does not pile up prefixes. */
  lemma ReplySubjectIdempotent(subject: Option<string>)
    ensures ReplySubject(Some(ReplySubject(subject))) == ReplySubject(subject)
    ensures subject.None? ==> ReplySubject(subject) == "Re:"
    ensures subject.Some? ==> ReplySubject(subject) in {subject.value, "Re: " + subject.value}
    ensures "Re:" <= ReplySubject(subject)
    ensures subject.Some? ==> subject.value <= ReplySubject(subject)[|ReplySubject(subject)| - |subject.value|..]
  {
  }
}
