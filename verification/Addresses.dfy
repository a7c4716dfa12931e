/** Address lists: splitting a header at commas, and reading back what was joined. */
module Addresses {
  import opened Wrappers
  import opened Text

  function TrimAll(xs: seq<string>): (r: seq<string>)
    ensures |r| == |xs| && forall i :: 0 <= i < |r| ==> r[i] == Trim(xs[i])
  {
    seq(|xs|, i requires 0 <= i < |xs| => Trim(xs[i]))
  }

  function NonEmpty(xs: seq<string>): (r: seq<string>)
    ensures forall x :: x in r <==> x in xs && x != ""
  {
    if xs == [] then [] else (if xs[0] == "" then [] else [xs[0]]) + NonEmpty(xs[1..])
  }

  function Addresses(s: string): seq<string> {
    NonEmpty(TrimAll(Split(s, ',')))
  }

  lemma NoAddresses()
    ensures Addresses("") == []
  {
    assert TrimAll(Split("", ',')) == [""];
  }

  /** The addresses in the pieces from the i-th on. */
  function AddressesFrom(pieces: seq<string>, i: nat): seq<string>
    requires i <= |pieces|
  {
    NonEmpty(TrimAll(pieces[i..]))
  }

  lemma OnePiece(pieces: seq<string>, i: nat)
    requires i < |pieces|
    ensures AddressesFrom(pieces, i) ==
            (if Trim(pieces[i]) == "" then [] else [Trim(pieces[i])]) + AddressesFrom(pieces, i + 1)
  {
    hide Trim;
    var rest := TrimAll(pieces[i + 1..]);
    assert TrimAll(pieces[i..]) == [Trim(pieces[i])] + rest;
    assert ([Trim(pieces[i])] + rest)[1..] == rest;
  }

  lemma Regrouped(emails: seq<string>, email: string, rest: seq<string>)
    ensures emails + ([email] + rest) == emails + [email] + rest
    ensures emails + ([] + rest) == emails + rest && rest == [] + rest
  {
  }

  lemma AllPieces(pieces: seq<string>)
    ensures AddressesFrom(pieces, 0) == NonEmpty(TrimAll(pieces)) && AddressesFrom(pieces, |pieces|) == []
  {
    assert pieces[0..] == pieces && pieces[|pieces|..] == [];
  }

  method ParseEmailAddresses(s: string) returns (emails: seq<string>)
    ensures emails == Addresses(s)
  {
    emails := [];
    if s == "" {
      NoAddresses();
      return;
    }
    hide Split, Trim, TrimAll, NonEmpty, AddressesFrom;
    var parts := Split(s, ',');
    AllPieces(parts);
    var i := 0;
    while i < |parts|
      invariant 0 <= i <= |parts|
      invariant emails + AddressesFrom(parts, i) == NonEmpty(TrimAll(parts))
    {
      var email := Trim(parts[i]);
      OnePiece(parts, i);
      Regrouped(emails, email, AddressesFrom(parts, i + 1));
      if email != "" {
        emails := emails + [email];
      }
      i := i + 1;
    }
  }

  /** The recipients as stored with a message: pieces are trimmed in place, empty ones are kept. */
  method ExtractRecipients(header: Option<string>) returns (recipients: seq<string>)
    ensures recipients == if header.None? then [] else TrimAll(Split(header.value, ','))
    ensures header.Some? ==> NonEmpty(recipients) == Addresses(header.value)
  {
    if header.None? {
      return [];
    }
    var pieces := Split(header.value, ',');
    var slice := new string[|pieces|](i requires 0 <= i < |pieces| => pieces[i]);
    var i := 0;
    while i < slice.Length
      invariant 0 <= i <= slice.Length
      invariant forall k :: 0 <= k < i ==> slice[k] == Trim(pieces[k])
      invariant forall k :: i <= k < slice.Length ==> slice[k] == pieces[k]
    {
      slice[i] := Trim(slice[i]);
      i := i + 1;
    }
    recipients := slice[..];
    assert recipients == TrimAll(pieces);
  }

  // ---------- Round trip ----------

  lemma {:induction false} SplitFirst(a: string, b: string, sep: char)
    requires sep !in a
    ensures Split(a, sep) == [a]
    ensures Split(a + [sep] + b, sep) == [a] + Split(b, sep)
  {
    if a == "" {
      assert a + [sep] + b == [sep] + b && ([sep] + b)[1..] == b;
    } else {
      assert (a + [sep] + b)[1..] == a[1..] + [sep] + b;
      assert [a[0]] + a[1..] == a;
      SplitFirst(a[1..], b, sep);
    }
  }

  lemma {:induction false} SplitJoin(xs: seq<string>, sep: char)
    requires xs != [] && forall x :: x in xs ==> sep !in x
    ensures Split(Join(xs, [sep]), sep) == xs
  {
    if |xs| == 1 {
      SplitFirst(xs[0], "", sep);
    } else {
      hide Split;
      var rest := Join(xs[1..], [sep]);
      assert xs[0] in xs && forall x :: x in xs[1..] ==> x in xs;
      SplitJoin(xs[1..], sep);
      SplitFirst(xs[0], rest, sep);
      assert Join(xs, [sep]) == xs[0] + [sep] + rest;
    }
  }

  lemma {:induction false} TrimRightFacts(s: string)
    ensures TrimRight(s) <= s
    ensures TrimRight(TrimRight(s)) == TrimRight(s)
  {
    if s != "" && IsSpace(s[|s| - 1]) {
      TrimRightFacts(s[..|s| - 1]);
    }
  }

  lemma {:induction false} TrimLeftFacts(s: string)
    ensures forall c :: c in TrimLeft(s) ==> c in s
    ensures TrimLeft(s) != "" ==> !IsSpace(TrimLeft(s)[0])
  {
    if s != "" && IsSpace(s[0]) {
      TrimLeftFacts(s[1..]);
    }
  }

  lemma TrimFacts(s: string)
    ensures Trim(Trim(s)) == Trim(s)
    ensures forall c :: c in Trim(s) ==> c in s
  {
    TrimLeftFacts(s);
    TrimRightFacts(TrimLeft(s));
  }

  predicate CleanAddress(x: string) {
    x != "" && Trim(x) == x && ',' !in x
  }

  lemma {:induction false} NothingDropped(xs: seq<string>)
    requires forall i :: 0 <= i < |xs| ==> xs[i] != ""
    ensures NonEmpty(xs) == xs
  {
    if xs != [] {
      NothingDropped(xs[1..]);
    }
  }

  /** Joining and parsing gives back the list exactly when every element is non-empty, trimmed and comma-free. */
  lemma JoinedAddressesReadBack(xs: seq<string>)
    ensures Addresses(Join(xs, ",")) == xs <==> forall x :: x in xs ==> CleanAddress(x)
  {
    var s := Join(xs, ",");
    if forall x :: x in xs ==> CleanAddress(x) {
      if xs == [] {
        assert TrimAll(Split("", ',')) == [""];
      } else {
        SplitJoin(xs, ',');
        forall i | 0 <= i < |xs| ensures xs[i] != "" && Trim(xs[i]) == xs[i] {
          assert xs[i] in xs;
        }
        assert TrimAll(xs) == xs;
        NothingDropped(xs);
      }
    }
    JoinSplit(s, ',');
    forall x | x in Addresses(s) ensures CleanAddress(x) {
      var i :| 0 <= i < |Split(s, ',')| && x == Trim(Split(s, ',')[i]);
      TrimFacts(Split(s, ',')[i]);
    }
  }
}
