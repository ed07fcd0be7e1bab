/** String operations the web layer relies on, with Python's meaning:
    `str.lower` (ASCII letters), `in` on strings, `str.split(sep)`,
    `sep.join(parts)`, `str.rsplit(sep, 1)[1]`. */
module Text {

  function LowerChar(c: char): char
  {
    if 'A' <= c <= 'Z' then (c as int + 32) as char else c
  }

  /** `s.lower()` on ASCII letters; every other character is kept. */
  function Lower(s: string): (r: string)
    ensures |r| == |s|
    ensures forall i :: 0 <= i < |s| ==> r[i] == LowerChar(s[i])
  {
    if s == [] then [] else [LowerChar(s[0])] + Lower(s[1..])
  }

  /** Lowering twice is lowering once. */
  lemma {:induction false} LowerIdempotent(s: string)
    ensures Lower(Lower(s)) == Lower(s)
  {
    var l := Lower(s);
    forall i | 0 <= i < |l|
      ensures Lower(l)[i] == l[i]
    {
      assert l[i] == LowerChar(s[i]);
    }
  }

  /** Text without upper-case ASCII letters is its own lowering. */
  lemma LowerKeepsLowercase(s: string)
    requires forall i :: 0 <= i < |s| ==> !('A' <= s[i] <= 'Z')
    ensures Lower(s) == s
  {
    var l := Lower(s);
    assert forall i :: 0 <= i < |s| ==> l[i] == s[i];
  }

  /** `needle in hay` for strings. */
  predicate IsSubstring(needle: string, hay: string)
  {
    needle <= hay || (hay != [] && IsSubstring(needle, hay[1..]))
  }

  lemma {:induction false} IsSubstringAt(needle: string, hay: string, i: nat)
    requires i + |needle| <= |hay| && hay[i..i + |needle|] == needle
    ensures IsSubstring(needle, hay)
  {
    if i > 0 {
      assert hay[1..][i - 1..i - 1 + |needle|] == hay[i..i + |needle|];
      IsSubstringAt(needle, hay[1..], i - 1);
    } else {
      assert needle <= hay;
    }
  }

  /** `s.split(c)`: the maximal comma-free (c-free) pieces, at least one. */
  function SplitOn(s: string, c: char): (parts: seq<string>)
    ensures |parts| >= 1
    ensures forall i :: 0 <= i < |parts| ==> c !in parts[i]
  {
    if s == [] then [""]
    else
      var rest := SplitOn(s[1..], c);
      if s[0] == c then [""] + rest
      else [[s[0]] + rest[0]] + rest[1..]
  }

  /** `sep.join(parts)`. */
  function Join(parts: seq<string>, sep: string): string
  {
    if parts == [] then ""
    else if |parts| == 1 then parts[0]
    else parts[0] + sep + Join(parts[1..], sep)
  }

  /** Splitting and joining again with the same separator gives back the text. */
  lemma {:induction false} JoinSplitOn(s: string, c: char)
    ensures Join(SplitOn(s, c), [c]) == s
  {
    if s != [] {
      var rest := SplitOn(s[1..], c);
      JoinSplitOn(s[1..], c);
      if s[0] == c {
        assert SplitOn(s, c)[1..] == rest;
        assert Join(SplitOn(s, c), [c]) == "" + [c] + Join(rest, [c]);
        assert s == [s[0]] + s[1..];
      } else if |rest| == 1 {
        assert SplitOn(s, c) == [[s[0]] + rest[0]];
        assert s == [s[0]] + s[1..];
      } else {
        var parts := SplitOn(s, c);
        assert parts[1..] == rest[1..];
        assert Join(rest, [c]) == rest[0] + [c] + Join(rest[1..], [c]);
        assert Join(parts, [c]) == [s[0]] + rest[0] + [c] + Join(rest[1..], [c]);
        assert s == [s[0]] + s[1..];
      }
    }
  }

  /** `s.split(c)` has a second piece exactly when c occurs in s. */
  lemma {:induction false} SplitOnHasSecondPiece(s: string, c: char)
    ensures |SplitOn(s, c)| >= 2 <==> c in s
  {
    if s != [] {
      SplitOnHasSecondPiece(s[1..], c);
      assert s == [s[0]] + s[1..];
    }
  }

  /** The payload that `s.split(',')[1]` keeps when s has a comma
      (`data:image/jpeg;base64,<payload>`); s itself otherwise. */
  function DataUriPayload(s: string): string
  {
    if ',' in s then
      SplitOnHasSecondPiece(s, ',');
      SplitOn(s, ',')[1]
    else s
  }

  /** With a comma present, the payload is exactly the text between the first
      comma and the next one (or the end): nothing before the first comma
      and nothing after the second is decoded. */
  lemma DataUriPayloadBetweenCommas(s: string)
    requires ',' in s
    ensures var p, i := DataUriPayload(s), |SplitOn(s, ',')[0]|;
            i + 1 + |p| <= |s| && s[i] == ',' && ',' !in s[..i] &&
            s[i + 1..i + 1 + |p|] == p && ',' !in p &&
            (i + 1 + |p| == |s| || s[i + 1 + |p|] == ',')
  {
    var parts := SplitOn(s, ',');
    SplitOnHasSecondPiece(s, ',');
    JoinSplitOn(s, ',');
    assert Join(parts, ",") == parts[0] + "," + Join(parts[1..], ",");
    var tail := if |parts| == 2 then "" else "," + Join(parts[2..], ",");
    assert parts[1..][1..] == parts[2..];
    assert Join(parts[1..], ",") == parts[1] + tail;
    var head, p := parts[0], parts[1];
    assert s == head + "," + p + tail;
    var i := |head|;
    assert s[..i] == head;
    assert s[i + 1..i + 1 + |p|] == p;
    assert tail != "" ==> s[i + 1 + |p|] == tail[0];
  }

  /** `s.rsplit(c, 1)[1]`: the text after the last c. */
  function AfterLast(s: string, c: char): (r: string)
    requires c in s
    ensures c !in r
    ensures |r| < |s| && s[|s| - |r| - 1] == c && s[|s| - |r|..] == r
  {
    if s[|s| - 1] == c then ""
    else
      assert s == s[..|s| - 1] + [s[|s| - 1]];
      AfterLast(s[..|s| - 1], c) + [s[|s| - 1]]
  }

  /** A separator-free prefix joins the first piece of what follows. */
  lemma {:induction false} SplitOnPrefix(p: string, s: string, c: char)
    requires c !in p
    ensures SplitOn(p + s, c) == [p + SplitOn(s, c)[0]] + SplitOn(s, c)[1..]
  {
    if p != [] {
      var q, ps := p[1..], SplitOn(s, c);
      assert (p + s)[1..] == q + s;
      assert c !in q;
      SplitOnPrefix(q, s, c);
      var r := SplitOn(q + s, c);
      assert r[0] == q + ps[0] && r[1..] == ps[1..];
      assert (p + s)[0] == p[0] != c;
      assert SplitOn(p + s, c) == [[p[0]] + r[0]] + r[1..];
      assert [p[0]] + (q + ps[0]) == p + ps[0];
    } else {
      assert p + s == s;
      assert p + SplitOn(s, c)[0] == SplitOn(s, c)[0];
      assert SplitOn(s, c) == [SplitOn(s, c)[0]] + SplitOn(s, c)[1..];
    }
  }

  /** Joining separator-free parts and splitting again gives back the parts. */
  lemma {:induction false} SplitOnJoin(parts: seq<string>, c: char)
    requires |parts| >= 1
    requires forall i :: 0 <= i < |parts| ==> c !in parts[i]
    ensures SplitOn(Join(parts, [c]), c) == parts
  {
    if |parts| == 1 {
      SplitOnPrefix(parts[0], "", c);
      assert parts[0] + "" == parts[0];
    } else {
      var rest := Join(parts[1..], [c]);
      SplitOnJoin(parts[1..], c);
      assert Join(parts, [c]) == parts[0] + ([c] + rest);
      SplitOnPrefix(parts[0], [c] + rest, c);
      assert ([c] + rest)[1..] == rest;
      assert SplitOn([c] + rest, c) == [""] + SplitOn(rest, c);
      assert parts[0] + "" == parts[0];
      assert parts == [parts[0]] + parts[1..];
    }
  }
}
