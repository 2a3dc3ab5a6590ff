/** JSON pointers (RFC 6901): the escaping of one reference token, its inverse, and the
    rendering of a whole key sequence. */
module JsonPointer {

  /** `s.replace(c, r)` for a single character `c`. */
  function ReplaceChar(s: string, c: char, r: string): string {
    if s == "" then "" else (if s[0] == c then r else [s[0]]) + ReplaceChar(s[1..], c, r)
  }

  /** `s.replace(p, r)` for a two-character `p`, left to right. */
  function ReplacePair(s: string, p: string, r: string): string
    requires |p| == 2
  {
    if |s| < 2 then s
    else if s[0] == p[0] && s[1] == p[1] then r + ReplacePair(s[2..], p, r)
    else [s[0]] + ReplacePair(s[1..], p, r)
  }

  /** Section 3 of RFC 6901, in the two passes of `pointer_token`. */
  function Escape(token: string): string {
    ReplaceChar(ReplaceChar(token, '~', "~0"), '/', "~1")
  }

  /** Section 4 of RFC 6901: first `~1`, then `~0`. */
  function Unescape(token: string): string {
    ReplacePair(ReplacePair(token, "~1", "/"), "~0", "~")
  }

  /** The pointer of a key sequence; the empty sequence gives the empty prefix. */
  function Pointer(tokens: seq<string>): string {
    if tokens == [] then "" else Pointer(tokens[..|tokens| - 1]) + "/" + Escape(tokens[|tokens| - 1])
  }

  /** A reported location: the root is shown as "/". */
  function Show(tokens: seq<string>): string {
    if Pointer(tokens) == "" then "/" else Pointer(tokens)
  }

  lemma {:induction false} ReplaceCharConcat(s: string, t: string, c: char, r: string)
    ensures ReplaceChar(s + t, c, r) == ReplaceChar(s, c, r) + ReplaceChar(t, c, r)
  {
    if s == "" {
      assert s + t == t;
    } else {
      ReplaceCharConcat(s[1..], t, c, r);
      assert (s + t)[1..] == s[1..] + t;
    }
  }

  /** Escaping works character by character. */
  function EscapeChar(c: char): string {
    if c == '~' then "~0" else if c == '/' then "~1" else [c]
  }

  lemma {:induction false} EscapeCons(s: string)
    requires s != ""
    ensures Escape(s) == EscapeChar(s[0]) + Escape(s[1..])
  {
    var head := if s[0] == '~' then "~0" else [s[0]];
    ReplaceCharConcat(head, ReplaceChar(s[1..], '~', "~0"), '/', "~1");
    assert ReplaceChar(head, '/', "~1") == EscapeChar(s[0]) by {
      assert head[1..] == if s[0] == '~' then "0" else "";
      if s[0] == '~' { assert head[1..][1..] == ""; }
    }
  }

  /** An escaped token never contains a separator. */
  lemma {:induction false} EscapeHasNoSlash(s: string)
    ensures '/' !in Escape(s)
  {
    if s != "" {
      EscapeCons(s);
      EscapeHasNoSlash(s[1..]);
    }
  }

  lemma {:induction false} FirstPassUndoesSlashes(s: string)
    ensures ReplacePair(Escape(s), "~1", "/") == ReplaceChar(s, '~', "~0")
  {
    assert Escape("") == "";
    hide Escape;
    if s != "" {
      EscapeCons(s);
      FirstPassUndoesSlashes(s[1..]);
      var rest := Escape(s[1..]);
      if s[0] == '~' {
        assert Escape(s)[1..] == ['0'] + rest;
        assert (['0'] + rest)[1..] == rest;
        assert ReplacePair(['0'] + rest, "~1", "/") == ['0'] + ReplacePair(rest, "~1", "/");
      } else if s[0] == '/' {
        assert Escape(s)[2..] == rest;
        assert ReplacePair(Escape(s), "~1", "/") == "/" + ReplacePair(rest, "~1", "/");
      } else {
        assert Escape(s)[1..] == rest;
        assert ReplacePair(Escape(s), "~1", "/") == [s[0]] + ReplacePair(rest, "~1", "/");
      }
    }
  }

  lemma {:induction false} SecondPassUndoesTildes(s: string)
    ensures ReplacePair(ReplaceChar(s, '~', "~0"), "~0", "~") == s
  {
    if s != "" {
      SecondPassUndoesTildes(s[1..]);
      var rest := ReplaceChar(s[1..], '~', "~0");
      if s[0] == '~' {
        assert ("~0" + rest)[2..] == rest;
      } else {
        assert ([s[0]] + rest)[1..] == rest;
      }
      assert s == [s[0]] + s[1..];
    }
  }

  /** Unescaping undoes escaping, for every token. */
  lemma UnescapeEscape(token: string)
    ensures Unescape(Escape(token)) == token
  {
    FirstPassUndoesSlashes(token);
    SecondPassUndoesTildes(token);
  }

  lemma LastSlash(p: string, e: string, p': string, e': string)
    requires p + "/" + e == p' + "/" + e'
    requires '/' !in e && '/' !in e'
    ensures p == p' && e == e'
  {
    var s := p + "/" + e;
    assert s[|p|] == '/' && s[|p'|] == '/';
    forall i | |p| < i < |s| ensures s[i] != '/' { assert s[i] == e[i - |p| - 1]; }
    forall i | |p'| < i < |s| ensures s[i] != '/' { assert s[i] == e'[i - |p'| - 1]; }
    assert |p| == |p'|;
    assert p == s[..|p|] && p' == s[..|p|];
    assert e == s[|p| + 1..] && e' == s[|p| + 1..];
  }

  /** Distinct key sequences have distinct pointers. */
  lemma {:induction false} PointerInjective(a: seq<string>, b: seq<string>)
    requires Pointer(a) == Pointer(b)
    ensures a == b
  {
    hide Escape, Unescape;
    if a != [] && b != [] {
      var x, y := a[|a| - 1], b[|b| - 1];
      EscapeHasNoSlash(x);
      EscapeHasNoSlash(y);
      LastSlash(Pointer(a[..|a| - 1]), Escape(x), Pointer(b[..|b| - 1]), Escape(y));
      UnescapeEscape(x);
      UnescapeEscape(y);
      PointerInjective(a[..|a| - 1], b[..|b| - 1]);
      assert a == a[..|a| - 1] + [x] && b == b[..|b| - 1] + [y];
    }
  }

  lemma PointerEmpty(a: seq<string>)
    ensures Pointer(a) == "" <==> a == []
  {
  }

  /** The one collision: the root is shown exactly like the key "". */
  lemma ShowCollision(a: seq<string>, b: seq<string>)
    ensures Show(a) == Show(b) <==> a == b || (a == [] && b == [""]) || (a == [""] && b == [])
  {
    assert Pointer([""]) == "/" by { assert [""][..0] == []; }
    if Pointer(a) == Pointer(b) { PointerInjective(a, b); }
    if Pointer(a) == "/" { PointerInjective(a, [""]); }
    if Pointer(b) == "/" { PointerInjective(b, [""]); }
  }
}
