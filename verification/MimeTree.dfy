/** The parts of a mail message: finding the body and counting attachments. */
module MimeTree {
  import opened Wrappers
  import opened Base64

  /** A message part; `data` is the empty string when the part has no body or an empty one. */
  datatype Part = Part(filename: string, mimeType: string, data: string, parts: seq<Part>)

  type Decoder = string -> Option<string>

  predicate Decodes(decode: Decoder, p: Part) {
    p.data != "" && decode(p.data).Some?
  }

  lemma ChildIsSmaller(p: Part, q: Part)
    requires q in p.parts
    ensures q < p
  {
    var i :| 0 <= i < |p.parts| && p.parts[i] == q;
    assert p.parts[i] < p;
  }

  /** The path to a part: which child to take at each level. */
  type Path = seq<nat>

  /** The part a path leads to, if it leads anywhere. */
  function At(p: Part, path: Path): Option<Part>
    decreases path
  {
    if path == [] then Some(p)
    else if path[0] < |p.parts| then At(p.parts[path[0]], path[1..])
    else None
  }

  // ---------- The search as the program does it ----------

  function ExtractMessageBody(decode: Decoder, p: Part): string
    decreases p, |p.parts| + 1
  {
    if Decodes(decode, p) then decode(p.data).value else ExtractFromParts(decode, p, p.parts)
  }

  function ExtractFromParts(decode: Decoder, p: Part, parts: seq<Part>): string
    requires forall q :: q in parts ==> q in p.parts
    decreases p, |parts|
  {
    if parts == [] then ""
    else
      var q, rest := parts[0], parts[1..];
      assert q in parts;
      ChildIsSmaller(p, q);
      if q.filename != "" then ExtractFromParts(decode, p, rest)
      else if q.mimeType == "text/plain" && Decodes(decode, q) then decode(q.data).value
      else if q.mimeType == "text/html" && Decodes(decode, q) then decode(q.data).value
      else
        var nested := ExtractMessageBody(decode, q);
        if nested != "" then nested else ExtractFromParts(decode, p, rest)
  }

  // ---------- What it is meant to find ----------

  /** All decodable bodies in pre-order, leaving out everything under a part that is a file. */
  function Bodies(decode: Decoder, p: Part): seq<string>
    decreases p, |p.parts| + 1
  {
    (if Decodes(decode, p) then [decode(p.data).value] else []) + BodiesOfParts(decode, p, p.parts)
  }

  function BodiesOfParts(decode: Decoder, p: Part, parts: seq<Part>): seq<string>
    requires forall q :: q in parts ==> q in p.parts
    decreases p, |parts|
  {
    if parts == [] then []
    else
      assert parts[0] in parts;
      ChildIsSmaller(p, parts[0]);
      (if parts[0].filename != "" then [] else Bodies(decode, parts[0])) + BodiesOfParts(decode, p, parts[1..])
  }

  function First(xs: seq<string>): string {
    if xs == [] then "" else xs[0]
  }

  /** No part's data decodes to the empty string. */
  ghost predicate NoBlanks(decode: Decoder, p: Part)
    decreases p
  {
    (p.data != "" ==> decode(p.data) != Some("")) && forall q :: q in p.parts ==> NoBlanks(decode, q)
  }

  lemma {:induction false} NoBlankBodies(decode: Decoder, p: Part)
    requires NoBlanks(decode, p)
    ensures forall b :: b in Bodies(decode, p) ==> b != ""
    decreases p, |p.parts| + 1
  {
    NoBlankBodiesOfParts(decode, p, p.parts);
  }

  lemma {:induction false} NoBlankBodiesOfParts(decode: Decoder, p: Part, parts: seq<Part>)
    requires NoBlanks(decode, p) && forall q :: q in parts ==> q in p.parts
    ensures forall b :: b in BodiesOfParts(decode, p, parts) ==> b != ""
    decreases p, |parts|
  {
    if parts != [] {
      assert parts[0] in parts;
      NoBlankBodies(decode, parts[0]);
      NoBlankBodiesOfParts(decode, p, parts[1..]);
    }
  }

  /** The search finds the first decodable body in pre-order, whatever the types of the parts, in every message in
      which that body is not blank or there is none. What files and later parts hold does not matter. */
  lemma {:induction false} FindsFirstBody(decode: Decoder, p: Part)
    requires Bodies(decode, p) == [] || Bodies(decode, p)[0] != ""
    ensures ExtractMessageBody(decode, p) == First(Bodies(decode, p))
    decreases p, |p.parts| + 1
  {
    if !Decodes(decode, p) {
      assert Bodies(decode, p) == BodiesOfParts(decode, p, p.parts);
      FindsFirstInParts(decode, p, p.parts);
    }
  }

  lemma {:induction false} FindsFirstInParts(decode: Decoder, p: Part, parts: seq<Part>)
    requires forall q :: q in parts ==> q in p.parts
    requires BodiesOfParts(decode, p, parts) == [] || BodiesOfParts(decode, p, parts)[0] != ""
    ensures ExtractFromParts(decode, p, parts) == First(BodiesOfParts(decode, p, parts))
    decreases p, |parts|
  {
    if parts != [] {
      var q := parts[0];
      assert q in parts;
      ChildIsSmaller(p, q);
      var mine := if q.filename != "" then [] else Bodies(decode, q);
      var rest := BodiesOfParts(decode, p, parts[1..]);
      assert BodiesOfParts(decode, p, parts) == mine + rest;
      if q.filename == "" {
        assert mine != [] ==> mine[0] == (mine + rest)[0];
        FindsFirstBody(decode, q);
      }
      if mine == [] {
        assert mine + rest == rest;
        FindsFirstInParts(decode, p, parts[1..]);
      }
    }
  }

  lemma FindsFirstWithoutBlanks(decode: Decoder, p: Part)
    requires NoBlanks(decode, p)
    ensures ExtractMessageBody(decode, p) == First(Bodies(decode, p))
  {
    hide Bodies, ExtractMessageBody;
    NoBlankBodies(decode, p);
    assert Bodies(decode, p) != [] ==> Bodies(decode, p)[0] in Bodies(decode, p);
    FindsFirstBody(decode, p);
  }

  // ---------- Exactly which messages ----------

  /** A text part that decodes: the search answers with it, blank or not. */
  predicate Commits(decode: Decoder, q: Part) {
    q.filename == "" && q.mimeType in {"text/plain", "text/html"} && Decodes(decode, q)
  }

  /** The search can get to the part at the end of the path: it starts at the i-th child, passes over no text part
      that decodes, and goes below no file and no part that decodes. */
  predicate ReachedFrom(decode: Decoder, p: Part, i: nat, path: Path)
    decreases path, 0
  {
    && path != [] && i <= path[0] < |p.parts| && p.parts[path[0]].filename == ""
    && (forall k | i <= k < path[0] :: !Commits(decode, p.parts[k]))
    && Reached(decode, p.parts[path[0]], path[1..])
  }

  predicate Reached(decode: Decoder, p: Part, path: Path)
    decreases path, 1
  {
    path == [] || (!Decodes(decode, p) && ReachedFrom(decode, p, 0, path))
  }

  /** At the end of the path is a body that is not blank. */
  predicate Holds(decode: Decoder, p: Part, path: Path) {
    var q := At(p, path);
    q.Some? && Decodes(decode, q.value) && decode(q.value.data).value != ""
  }

  /** The search comes back with something exactly when it can get to a body that is not blank. */
  lemma {:induction false} FindsSomething(decode: Decoder, p: Part)
    ensures ExtractMessageBody(decode, p) != "" <==> exists path :: Reached(decode, p, path) && Holds(decode, p, path)
    decreases p, |p.parts| + 1
  {
    if Decodes(decode, p) {
      assert Reached(decode, p, []) && (Holds(decode, p, []) <==> decode(p.data).value != "");
      forall path | Reached(decode, p, path) && Holds(decode, p, path) ensures path == [] {
      }
    } else {
      FindsSomethingInParts(decode, p, 0);
      assert p.parts[0..] == p.parts;
      forall path | Reached(decode, p, path) && Holds(decode, p, path) ensures ReachedFrom(decode, p, 0, path) {
      }
      forall path | ReachedFrom(decode, p, 0, path) ensures Reached(decode, p, path) {
      }
    }
  }

  lemma {:induction false} FindsSomethingInParts(decode: Decoder, p: Part, i: nat)
    requires i <= |p.parts|
    ensures ExtractFromParts(decode, p, p.parts[i..]) != "" <==>
            exists path :: ReachedFrom(decode, p, i, path) && Holds(decode, p, path)
    decreases p, |p.parts| - i
  {
    if i < |p.parts| {
      var q := p.parts[i];
      assert q in p.parts && p.parts[i..][0] == q && p.parts[i..][1..] == p.parts[i + 1..];
      ChildIsSmaller(p, q);
      FindsSomethingInParts(decode, p, i + 1);
      FindsSomething(decode, q);
      ReachedHere(decode, p, i);
    }
  }

  /** From the i-th child on, the search gets to what it gets to below that child and, unless that child is a text
      part that decodes, to what it gets to from the next child on. */
  lemma ReachedHere(decode: Decoder, p: Part, i: nat)
    requires i < |p.parts|
    ensures var q := p.parts[i];
            var after := exists path :: ReachedFrom(decode, p, i + 1, path) && Holds(decode, p, path);
            var below := exists path :: Reached(decode, q, path) && Holds(decode, q, path);
            (exists path :: ReachedFrom(decode, p, i, path) && Holds(decode, p, path)) <==>
            (q.filename == "" && below) || (!Commits(decode, q) && after)
  {
    var q := p.parts[i];
    forall path | ReachedFrom(decode, p, i, path) && Holds(decode, p, path)
      ensures if path[0] == i then q.filename == "" && Reached(decode, q, path[1..]) && Holds(decode, q, path[1..])
              else !Commits(decode, q) && ReachedFrom(decode, p, i + 1, path)
    {
      assert At(p, path) == At(p.parts[path[0]], path[1..]);
    }
    forall path | q.filename == "" && Reached(decode, q, path) && Holds(decode, q, path)
      ensures ReachedFrom(decode, p, i, [i] + path) && Holds(decode, p, [i] + path)
    {
      assert ([i] + path)[0] == i && ([i] + path)[1..] == path;
    }
    forall path | !Commits(decode, q) && ReachedFrom(decode, p, i + 1, path) ensures ReachedFrom(decode, p, i, path) {
    }
  }

  /** Message by message, for any decoder: the search finds the first body in pre-order unless that body is blank and
      the search goes on to one that is not. */
  lemma SearchExactly(decode: Decoder, p: Part)
    ensures ExtractMessageBody(decode, p) == First(Bodies(decode, p)) <==>
            Bodies(decode, p) == [] || Bodies(decode, p)[0] != "" ||
            !exists path :: Reached(decode, p, path) && Holds(decode, p, path)
  {
    if Bodies(decode, p) == [] || Bodies(decode, p)[0] != "" {
      FindsFirstBody(decode, p);
    } else {
      FindsSomething(decode, p);
    }
  }

  // ---------- Exactly which decoders ----------

  ghost predicate NeverBlank(decode: Decoder) {
    forall d :: d != "" ==> decode(d) != Some("")
  }

  lemma {:induction false} NeverBlankNoBlanks(decode: Decoder, p: Part)
    requires NeverBlank(decode)
    ensures NoBlanks(decode, p)
    decreases p
  {
    forall q | q in p.parts ensures NoBlanks(decode, q) {
      NeverBlankNoBlanks(decode, q);
    }
  }

  /** For all messages alike: exactly with decoders that turn no data into an empty body (of those that can
      decode anything to a non-empty one). */
  lemma FindsFirstBodyExactly(decode: Decoder, sample: string)
    requires sample != "" && decode(sample).Some? && decode(sample).value != ""
    ensures NeverBlank(decode) <==> forall p :: ExtractMessageBody(decode, p) == First(Bodies(decode, p))
  {
    if NeverBlank(decode) {
      forall p ensures ExtractMessageBody(decode, p) == First(Bodies(decode, p)) {
        NeverBlankNoBlanks(decode, p);
        FindsFirstWithoutBlanks(decode, p);
      }
    } else {
      var blank :| blank != "" && decode(blank) == Some("");
      BlankIsPassedOver(decode, blank, sample);
    }
  }

  lemma BlankIsPassedOver(decode: Decoder, blank: string, sample: string)
    requires blank != "" && decode(blank) == Some("")
    requires sample != "" && decode(sample).Some? && decode(sample).value != ""
    ensures exists p :: ExtractMessageBody(decode, p) != First(Bodies(decode, p))
  {
    var a, b := Part("", "image/png", blank, []), Part("", "text/plain", sample, []);
    var p := Part("", "multipart/mixed", "", [a, b]);
    assert p.parts[0] == a && p.parts[1..] == [b] && [b][1..] == [];
    assert ExtractMessageBody(decode, a) == "";
    assert ExtractFromParts(decode, p, [b]) == decode(sample).value;
    assert Bodies(decode, a) == [""] + BodiesOfParts(decode, a, []);
    assert Bodies(decode, p) == [] + BodiesOfParts(decode, p, [a, b]);
    assert BodiesOfParts(decode, p, [a, b])[0] == "";
    assert ExtractMessageBody(decode, p) != First(Bodies(decode, p));
  }

  lemma SampleDecodes()
    ensures Decode("QQ==") == Some("A")
  {
    assert Encode("A") == "QQ==";
    RoundTrip("A");
  }

  /** The base64 decoder in use skips line breaks, so data made of line breaks alone is the one kind that is blank:
      with it a message fails exactly when its first body is such data and the search goes on to a body that is not.
      There are such messages; none of them is free of data made of line breaks. */
  lemma DecoderInUse(p: Part)
    ensures forall d :: Decode(d) == Some("") <==> forall c :: c in d ==> c in "\r\n"
    ensures ExtractMessageBody(Decode, p) == First(Bodies(Decode, p)) <==>
            Bodies(Decode, p) == [] || Bodies(Decode, p)[0] != "" ||
            !exists path :: Reached(Decode, p, path) && Holds(Decode, p, path)
    ensures exists p' :: ExtractMessageBody(Decode, p') != First(Bodies(Decode, p'))
    ensures NoBlanks(Decode, p) <==> NoBreaksOnly(p)
    ensures NoBreaksOnly(p) ==> ExtractMessageBody(Decode, p) == First(Bodies(Decode, p))
  {
    hide Bodies, ExtractMessageBody, Reached, Holds, NoBlanks, NoBreaksOnly, Decode;
    forall d ensures Decode(d) == Some("") <==> forall c :: c in d ==> c in "\r\n" {
      EmptyExactly(d);
    }
    SampleDecodes();
    BlankIsPassedOver(Decode, "\n", "QQ==");
    SearchExactly(Decode, p);
    NoBreaksOnlyExactly(p);
    if NoBreaksOnly(p) {
      FindsFirstWithoutBlanks(Decode, p);
    }
  }

  /** Every part's data is empty or holds something besides line breaks. */
  ghost predicate NoBreaksOnly(p: Part)
    decreases p
  {
    (p.data == "" || exists c :: c in p.data && c !in "\r\n") && forall q :: q in p.parts ==> NoBreaksOnly(q)
  }

  lemma {:induction false} NoBreaksOnlyExactly(p: Part)
    ensures NoBlanks(Decode, p) <==> NoBreaksOnly(p)
    decreases p
  {
    EmptyExactly(p.data);
    forall q | q in p.parts ensures NoBlanks(Decode, q) <==> NoBreaksOnly(q) {
      NoBreaksOnlyExactly(q);
    }
  }

  // ---------- Attachments ----------

  function CountAttachments(p: Part): nat
    decreases p, |p.parts| + 1
  {
    (if p.filename != "" then 1 else 0) + CountInParts(p, p.parts)
  }

  function CountInParts(p: Part, parts: seq<Part>): nat
    requires forall q :: q in parts ==> q in p.parts
    decreases p, |parts|
  {
    if parts == [] then 0
    else
      assert parts[0] in parts;
      ChildIsSmaller(p, parts[0]);
      CountAttachments(parts[0]) + CountInParts(p, parts[1..])
  }

  ghost predicate IsFile(p: Part, path: Path) {
    At(p, path).Some? && At(p, path).value.filename != ""
  }

  function Under(i: nat, paths: set<Path>): set<Path> {
    set path | path in paths :: [i] + path
  }

  lemma UnderExactly(i: nat, paths: set<Path>, path: Path)
    ensures path in Under(i, paths) <==> path != [] && path[0] == i && path[1..] in paths
  {
    if path != [] && path[0] == i {
      assert path == [i] + path[1..];
    }
    forall other | other in paths ensures ([i] + other)[1..] == other {
    }
  }

  lemma {:induction false} UnderSize(i: nat, paths: set<Path>)
    ensures |Under(i, paths)| == |paths|
  {
    if paths != {} {
      var path :| path in paths;
      UnderSize(i, paths - {path});
      assert Under(i, paths) == Under(i, paths - {path}) + {[i] + path};
      forall other | other in paths - {path} ensures [i] + other != [i] + path {
        assert ([i] + other)[1..] == other && ([i] + path)[1..] == path;
      }
    }
  }

  /** The count is the number of places in the message that hold a file. */
  lemma {:induction false} CountsFiles(p: Part) returns (files: set<Path>)
    ensures forall path :: path in files <==> IsFile(p, path)
    ensures CountAttachments(p) == |files|
    decreases p, |p.parts| + 1
  {
    var below := CountsFilesInParts(p, 0);
    files := below + if p.filename != "" then {[]} else {};
    assert p.parts[0..] == p.parts;
    forall path ensures path in files <==> IsFile(p, path) {
      if path == [] {
      } else {
        assert path in files <==> path in below;
      }
    }
  }

  /** The files below the children from the i-th on. */
  lemma {:induction false} CountsFilesInParts(p: Part, i: nat) returns (files: set<Path>)
    requires i <= |p.parts|
    ensures forall path :: path in files <==> path != [] && i <= path[0] && IsFile(p, path)
    ensures CountInParts(p, p.parts[i..]) == |files|
    decreases p, |p.parts| - i
  {
    if i == |p.parts| {
      files := {};
    } else {
      var q := p.parts[i];
      assert q in p.parts;
      assert p.parts[i..][0] == q && p.parts[i..][1..] == p.parts[i + 1..];
      var here := CountsFiles(q);
      var rest := CountsFilesInParts(p, i + 1);
      UnderSize(i, here);
      files := Under(i, here) + rest;
      assert Under(i, here) !! rest;
      forall path ensures path in files <==> path != [] && i <= path[0] && IsFile(p, path) {
        UnderExactly(i, here, path);
        if path != [] && path[0] == i {
          assert At(p, path) == At(q, path[1..]);
        }
      }
    }
  }
}
