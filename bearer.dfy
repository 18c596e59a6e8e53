/**
 * How the `protect` middleware takes a session token out of the
 * `Authorization` header: the header must start with "Bearer" (no space is
 * required after it), and the token is the second field of the header split
 * on single spaces.
 */
module Bearer {
  import opened Wrappers

  const Scheme: string := "Bearer"

  predicate StartsWith(s: string, prefix: string) {
    |prefix| <= |s| && s[..|prefix|] == prefix
  }

  /**
   * `String.prototype.split` with a one-character separator: every
   * occurrence cuts, so neighbouring separators give an empty field between
   * them, and a string without the separator is one field.
   */
  function Split(s: string, sep: char): (fields: seq<string>)
    ensures |fields| >= 1
    ensures forall i :: 0 <= i < |fields| ==> sep !in fields[i]
  {
    if s == [] then [[]]
    else
      var rest := Split(s[1..], sep);
      if s[0] == sep then [[]] + rest else [[s[0]] + rest[0]] + rest[1..]
  }

  /** `Array.prototype.join`: the fields with one separator between neighbours. */
  function Join(fields: seq<string>, sep: char): string
    requires |fields| >= 1
  {
    if |fields| == 1 then fields[0] else fields[0] + [sep] + Join(fields[1..], sep)
  }

  /** Joining the fields gives back the split string. */
  lemma {:induction false} JoinSplit(s: string, sep: char)
    ensures Join(Split(s, sep), sep) == s
  {
    if s != [] {
      var rest := Split(s[1..], sep);
      JoinSplit(s[1..], sep);
      if s[0] == sep {
        assert ([[]] + rest)[1..] == rest;
      } else {
        var fields := [[s[0]] + rest[0]] + rest[1..];
        if |rest| > 1 {
          assert fields[1..] == rest[1..];
        }
      }
    }
  }

  /** A field without the separator, glued in front, extends the first field only. */
  lemma {:induction false} SplitAfterField(a: string, x: string, sep: char)
    requires sep !in a
    ensures Split(a + x, sep) == [a + Split(x, sep)[0]] + Split(x, sep)[1..]
  {
    var fields := Split(x, sep);
    if a == [] {
      assert a + x == x;
      assert a + fields[0] == fields[0];
      assert [fields[0]] + fields[1..] == fields;
    } else {
      SplitAfterField(a[1..], x, sep);
      assert (a + x)[1..] == a[1..] + x;
      var rest := Split(a[1..] + x, sep);
      assert rest == [a[1..] + fields[0]] + fields[1..];
      assert rest[1..] == fields[1..];
      assert [a[0]] + (a[1..] + fields[0]) == a + fields[0];
    }
  }

  /** Splitting joined separator-free fields gives back the fields. */
  lemma {:induction false} SplitJoin(fields: seq<string>, sep: char)
    requires |fields| >= 1
    requires forall i :: 0 <= i < |fields| ==> sep !in fields[i]
    ensures Split(Join(fields, sep), sep) == fields
  {
    if |fields| == 1 {
      SplitAfterField(fields[0], [], sep);
      assert fields[0] + [] == fields[0];
    } else {
      var tail := Join(fields[1..], sep);
      SplitJoin(fields[1..], sep);
      assert Split([sep] + tail, sep) == [[]] + fields[1..] by {
        assert ([sep] + tail)[1..] == tail;
      }
      SplitAfterField(fields[0], [sep] + tail, sep);
      assert fields[0] + [sep] + tail == fields[0] + ([sep] + tail);
      assert fields[0] + [] == fields[0];
    }
  }

  /** `protect`'s token rule: present, starting with "Bearer", and a non-empty second field. */
  function ExtractToken(authorization: Option<string>): (token: Option<string>)
    ensures authorization.None? ==> token.None?
    ensures token.Some? ==> StartsWith(authorization.value, Scheme)
    ensures token.Some? ==> token.value != "" && ' ' !in token.value
  {
    match authorization
    case None => None
    case Some(header) =>
      if !StartsWith(header, Scheme) then None
      else
        var fields := Split(header, ' ');
        if |fields| < 2 || fields[1] == "" then None else Some(fields[1])
  }

  /** The field structure of a header: a first field, a space, the token, then nothing or a further space. */
  ghost predicate SecondField(header: string, token: string) {
    exists first, more {:trigger first + [' '] + token + more} :: header == first + [' '] + token + more
      && ' ' !in first && ' ' !in token && (more == [] || more[0] == ' ')
  }

  lemma JoinCons(first: string, fields: seq<string>, sep: char)
    requires |fields| >= 1
    ensures Join([first] + fields, sep) == first + [sep] + Join(fields, sep)
  {
    assert ([first] + fields)[1..] == fields;
  }

  lemma ExtractedIsSecondField(header: string, token: string)
    requires ExtractToken(Some(header)) == Some(token)
    ensures SecondField(header, token)
  {
    var fields := Split(header, ' ');
    JoinSplit(header, ' ');
    assert fields == [fields[0]] + fields[1..];
    JoinCons(fields[0], fields[1..], ' ');
    var more: string;
    if |fields| == 2 {
      more := [];
      assert fields[1..] == [token];
    } else {
      more := [' '] + Join(fields[2..], ' ');
      assert fields[1..] == [token] + fields[2..];
      JoinCons(token, fields[2..], ' ');
    }
    assert Join(fields[1..], ' ') == token + more;
    var first := fields[0];
    assert header == first + [' '] + token + more;
    assert ' ' !in first && ' ' !in token;
    assert more == [] || more[0] == ' ';
    SecondFieldIntro(header, token, first, more);
  }

  lemma SecondFieldIntro(header: string, token: string, first: string, more: string)
    requires header == first + [' '] + token + more
    requires ' ' !in first && ' ' !in token && (more == [] || more[0] == ' ')
    ensures SecondField(header, token)
  {
  }

  /** The fields of `more` after its leading space, if it has one. */
  lemma JoinTail(token: string, more: string) returns (tail: seq<string>)
    requires ' ' !in token && (more == [] || more[0] == ' ')
    ensures |tail| >= 1 && tail[0] == token
    ensures forall i :: 0 <= i < |tail| ==> ' ' !in tail[i]
    ensures Join(tail, ' ') == token + more
  {
    if more == [] {
      tail := [token];
      assert token + more == token;
    } else {
      var rest := Split(more[1..], ' ');
      JoinSplit(more[1..], ' ');
      JoinCons(token, rest, ' ');
      assert more == [' '] + more[1..];
      tail := [token] + rest;
      forall i | 0 <= i < |tail| ensures ' ' !in tail[i] {
        if i >= 1 { assert tail[i] == rest[i - 1]; }
      }
    }
  }

  lemma SplitSecondField(header: string, token: string, first: string, more: string)
    requires header == first + [' '] + token + more
    requires ' ' !in first && ' ' !in token && (more == [] || more[0] == ' ')
    ensures |Split(header, ' ')| >= 2 && Split(header, ' ')[1] == token
  {
    var tail := JoinTail(token, more);
    JoinCons(first, tail, ' ');
    var parts := [first] + tail;
    assert Join(parts, ' ') == header;
    forall i | 0 <= i < |parts| ensures ' ' !in parts[i] {
      if i >= 1 { assert parts[i] == tail[i - 1]; }
    }
    SplitJoin(parts, ' ');
  }

  lemma SecondFieldIsExtracted(header: string, token: string, first: string, more: string)
    requires StartsWith(header, Scheme) && token != ""
    requires header == first + [' '] + token + more
    requires ' ' !in first && ' ' !in token && (more == [] || more[0] == ' ')
    ensures ExtractToken(Some(header)) == Some(token)
  {
    SplitSecondField(header, token, first, more);
  }

  /** The token is extracted exactly when the header starts with "Bearer" and its second space-separated field is non-empty. */
  lemma ExtractTokenIsSecondField(header: string, token: string)
    ensures ExtractToken(Some(header)) == Some(token)
        <==> StartsWith(header, Scheme) && token != "" && SecondField(header, token)
  {
    if ExtractToken(Some(header)) == Some(token) {
      ExtractedIsSecondField(header, token);
    }
    if StartsWith(header, Scheme) && token != "" && SecondField(header, token) {
      var first, more :| header == first + [' '] + token + more
        && ' ' !in first && ' ' !in token && (more == [] || more[0] == ' ');
      SecondFieldIsExtracted(header, token, first, more);
    }
  }

  /** The header a client builds, "Bearer " followed by a space-free token, yields that token. */
  lemma ExtractTokenOfBearerHeader(token: string)
    requires token != "" && ' ' !in token
    ensures ExtractToken(Some(Scheme + " " + token)) == Some(token)
  {
    var header := Scheme + " " + token;
    assert header[..|Scheme|] == Scheme;
    assert header == Scheme + [' '] + token + "";
    SecondFieldIsExtracted(header, token, Scheme, "");
  }

  /** No space is needed after "Bearer": the token is whatever follows the first space. */
  lemma ExtractTokenWithoutSpaceAfterScheme()
    ensures ExtractToken(Some("Bearerx y")) == Some("y")
  {
    assert "Bearerx y"[..6] == Scheme;
    assert "Bearerx y" == "Bearerx" + [' '] + "y" + "";
    SecondFieldIsExtracted("Bearerx y", "y", "Bearerx", "");
  }

  /** Only the second field is taken; later fields are ignored. */
  lemma ExtractTokenIgnoresLaterFields()
    ensures ExtractToken(Some("Bearer a b")) == Some("a")
  {
    assert "Bearer a b"[..6] == Scheme;
    assert "Bearer a b" == "Bearer" + [' '] + "a" + " b";
    SecondFieldIsExtracted("Bearer a b", "a", "Bearer", " b");
  }

  /** A bare scheme has no second field. */
  lemma ExtractTokenBareScheme()
    ensures ExtractToken(Some("Bearer")) == None
  {
    SplitJoin(["Bearer"], ' ');
  }

  /** Two spaces make the second field empty, and an empty field is no token. */
  lemma ExtractTokenDoubleSpace()
    ensures ExtractToken(Some("Bearer  x")) == None
  {
    assert Join(["Bearer", "", "x"], ' ') == "Bearer  x";
    SplitJoin(["Bearer", "", "x"], ' ');
  }

  /** The scheme is matched case-sensitively. */
  lemma ExtractTokenLowerCaseScheme()
    ensures ExtractToken(Some("bearer x")) == None
  {
    assert "bearer x"[0] != Scheme[0];
  }
}
