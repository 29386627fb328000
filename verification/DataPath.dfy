// Paths into a value, and the id a row has for its path: a JSON pointer
// (section 3 of RFC 6901) behind `#`.
module DataPaths {
  import opened Strings

  // One step into a value: by name into an object, by place into a list.
  datatype Segment = Key(key: string) | Index(index: nat)

  type DataPath = seq<Segment>

  function SegmentText(segment: Segment): string {
    match segment
    case Key(key) => key
    case Index(index) => Decimal(index)
  }

  // Every `c` replaced, the rest kept.
  function ReplaceAll(s: string, c: char, escaped: string): string {
    if s == [] then [] else (if s[0] == c then escaped else [s[0]]) + ReplaceAll(s[1..], c, escaped)
  }

  function Escape(s: string): string {
    ReplaceAll(ReplaceAll(s, '~', "~0"), '/', "~1")
  }

  function Pointer(path: DataPath): string {
    if path == [] then [] else "/" + Escape(SegmentText(path[0])) + Pointer(path[1..])
  }

  function PathId(path: DataPath): string {
    "#" + Pointer(path)
  }

  // What a path's segments read as; an index reads as the key of its digits.
  function Texts(path: DataPath): seq<string> {
    seq(|path|, i requires 0 <= i < |path| => SegmentText(path[i]))
  }

  // -- Escaping -------------------------------------------------------------------

  // Undoes the escaping, one escape at a time.
  function Unescape(s: string): string {
    if s == [] then []
    else if |s| >= 2 && s[0] == '~' then
      [if s[1] == '0' then '~' else if s[1] == '1' then '/' else s[1]] + Unescape(s[2..])
    else [s[0]] + Unescape(s[1..])
  }

  lemma {:induction false} ReplaceAllConcat(s: string, t: string, c: char, escaped: string)
    ensures ReplaceAll(s + t, c, escaped) == ReplaceAll(s, c, escaped) + ReplaceAll(t, c, escaped)
  {
    if s == [] {
      assert s + t == t;
    } else {
      assert (s + t)[1..] == s[1..] + t;
      ReplaceAllConcat(s[1..], t, c, escaped);
    }
  }

  // The two passes escape character by character.
  lemma EscapeStep(s: string)
    requires s != []
    ensures Escape(s) ==
            (if s[0] == '~' then "~0" else if s[0] == '/' then "~1" else [s[0]]) + Escape(s[1..])
  {
    var first := if s[0] == '~' then "~0" else [s[0]];
    assert ReplaceAll(s, '~', "~0") == first + ReplaceAll(s[1..], '~', "~0");
    ReplaceAllConcat(first, ReplaceAll(s[1..], '~', "~0"), '/', "~1");
    assert first[1..] == if s[0] == '~' then "0" else [];
    assert "0"[1..] == "";
  }

  lemma {:induction false} UnescapeEscape(s: string)
    ensures Unescape(Escape(s)) == s
  {
    if s != [] {
      EscapeStep(s);
      UnescapeEscape(s[1..]);
      var rest := Escape(s[1..]);
      if s[0] == '~' || s[0] == '/' {
        assert Escape(s)[2..] == rest;
      } else {
        assert Escape(s)[1..] == rest;
      }
    }
  }

  lemma {:induction false} EscapedHasNoSlash(s: string)
    ensures '/' !in Escape(s)
  {
    if s != [] {
      EscapeStep(s);
      EscapedHasNoSlash(s[1..]);
    }
  }

  function SlashAt(s: string): nat {
    if s == [] || s[0] == '/' then 0 else 1 + SlashAt(s[1..])
  }

  lemma {:induction false} SlashAfter(a: string, x: string)
    requires '/' !in a && (x == [] || x[0] == '/')
    ensures SlashAt(a + x) == |a|
  {
    if a == [] {
      assert a + x == x;
    } else {
      assert (a + x)[1..] == a[1..] + x;
      SlashAfter(a[1..], x);
    }
  }

  // Texts without `/`, each followed by nothing or by a `/`, can be told apart.
  lemma SplitAtSlash(a: string, x: string, b: string, y: string)
    requires a + x == b + y && '/' !in a && '/' !in b
    requires x == [] || x[0] == '/'
    requires y == [] || y[0] == '/'
    ensures a == b && x == y
  {
    SlashAfter(a, x);
    SlashAfter(b, y);
    assert (a + x)[..|a|] == a && (b + y)[..|b|] == b;
    assert (a + x)[|a|..] == x && (b + y)[|b|..] == y;
  }

  lemma PointerTail(p: DataPath)
    requires p != []
    ensures Pointer(p) != [] && Pointer(p)[0] == '/'
    ensures Pointer(p)[1..] == Escape(SegmentText(p[0])) + Pointer(p[1..])
  {
    assert Pointer(p) == ['/'] + (Escape(SegmentText(p[0])) + Pointer(p[1..]));
  }

  lemma SegmentsAgree(p: DataPath, q: DataPath)
    requires p != [] && q != [] && Pointer(p) == Pointer(q)
    ensures SegmentText(p[0]) == SegmentText(q[0]) && Pointer(p[1..]) == Pointer(q[1..])
  {
    var a, b := SegmentText(p[0]), SegmentText(q[0]);
    EscapedHasNoSlash(a);
    EscapedHasNoSlash(b);
    PointerTail(p);
    PointerTail(q);
    if p[1..] != [] {
      PointerTail(p[1..]);
    }
    if q[1..] != [] {
      PointerTail(q[1..]);
    }
    SplitAtSlash(Escape(a), Pointer(p[1..]), Escape(b), Pointer(q[1..]));
    UnescapeEscape(a);
    UnescapeEscape(b);
  }

  lemma {:induction false} PointerInjective(p: DataPath, q: DataPath)
    requires Pointer(p) == Pointer(q)
    ensures Texts(p) == Texts(q)
  {
    if p != [] {
      PointerTail(p);
    }
    if q != [] {
      PointerTail(q);
    }
    if p != [] && q != [] {
      SegmentsAgree(p, q);
      PointerInjective(p[1..], q[1..]);
      assert Texts(p) == [SegmentText(p[0])] + Texts(p[1..]);
      assert Texts(q) == [SegmentText(q[0])] + Texts(q[1..]);
    }
  }

  lemma {:induction false} PointerOfTexts(p: DataPath, q: DataPath)
    requires Texts(p) == Texts(q)
    ensures Pointer(p) == Pointer(q)
  {
    assert |Texts(p)| == |p| && |Texts(q)| == |q|;
    if p != [] {
      assert Texts(p)[0] == SegmentText(p[0]) && Texts(q)[0] == SegmentText(q[0]);
      assert Texts(p)[1..] == Texts(p[1..]) && Texts(q)[1..] == Texts(q[1..]);
      PointerOfTexts(p[1..], q[1..]);
    }
  }

  // Two paths have one id exactly when their segments read the same.
  lemma PathIdIffTexts(p: DataPath, q: DataPath)
    ensures PathId(p) == PathId(q) <==> Texts(p) == Texts(q)
  {
    if PathId(p) == PathId(q) {
      assert PathId(p)[1..] == Pointer(p) && PathId(q)[1..] == Pointer(q);
      PointerInjective(p, q);
    }
    if Texts(p) == Texts(q) {
      PointerOfTexts(p, q);
    }
  }
}
