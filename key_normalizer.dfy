/**
 * `normalizeKey`: the canonical form of a free-text segment or group label.
 * The four stages of the source are four functions here, composed in the same
 * order: trim, upper-case, each whitespace run to one `_`, drop every code
 * point outside `A-Z`, `0-9`, `_`, `-`.
 */
module KeyNormalizer {
  import opened JsText

  /** The characters a normalised key may contain. */
  predicate IsKeyChar(c: char) {
    ('A' <= c <= 'Z') || ('0' <= c <= '9') || c == '_' || c == '-'
  }

  predicate IsKey(s: string) {
    forall i :: 0 <= i < |s| ==> IsKeyChar(s[i])
  }

  /** Upper-case mapping of one code point, restricted to ASCII letters. */
  function UpperChar(c: char): (u: char)
    ensures IsWhitespace(u) <==> IsWhitespace(c)
    ensures 'a' <= c <= 'z' ==> 'A' <= u <= 'Z' && u as int == c as int - 32
    ensures !('a' <= c <= 'z') ==> u == c
  {
    if 'a' <= c <= 'z' then (c as int - 32) as char else c
  }

  /** `toUpperCase`, code point by code point. */
  function ToUpper(s: string): (r: string)
    ensures |r| == |s|
    ensures forall i :: 0 <= i < |s| ==> r[i] == UpperChar(s[i])
  {
    seq(|s|, i requires 0 <= i < |s| => UpperChar(s[i]))
  }

  /** `replace(/\s+/g, "_")`: each maximal run of whitespace becomes a single underscore. */
  function CollapseWhitespace(s: string): (r: string)
    ensures NoWhitespace(r)
    decreases |s|
  {
    if s == [] then []
    else if IsWhitespace(s[0]) then "_" + CollapseWhitespace(TrimStart(s))
    else [s[0]] + CollapseWhitespace(s[1..])
  }

  /** `replace(/[^A-Z0-9_\-]/g, "")`: keeps exactly the key characters, in order. */
  function StripDisallowed(s: string): (r: string)
    ensures IsKey(r)
    ensures |r| <= |s|
  {
    if s == [] then []
    else if IsKeyChar(s[0]) then [s[0]] + StripDisallowed(s[1..])
    else StripDisallowed(s[1..])
  }

  /** `normalizeKey(value)`: the result holds only key characters, hence never whitespace. */
  function NormalizeKey(s: string): (r: string)
    ensures IsKey(r)
    ensures NoWhitespace(r)
  {
    StripDisallowed(CollapseWhitespace(ToUpper(Trim(s))))
  }

  /** Text without whitespace goes through the run-collapsing stage unchanged. */
  lemma {:induction false} CollapseIdentity(s: string)
    requires NoWhitespace(s)
    ensures CollapseWhitespace(s) == s
  {
    if s != [] {
      CollapseIdentity(s[1..]);
      assert s == [s[0]] + s[1..];
    }
  }

  /** Text made of key characters goes through the stripping stage unchanged. */
  lemma {:induction false} StripIdentity(s: string)
    requires IsKey(s)
    ensures StripDisallowed(s) == s
  {
    if s != [] {
      StripIdentity(s[1..]);
      assert s == [s[0]] + s[1..];
    }
  }

  /** The stripping stage decides each character on its own: a key character is kept, any other dropped. */
  lemma StripChar(c: char)
    ensures StripDisallowed([c]) == if IsKeyChar(c) then [c] else []
  {
    assert [c][1..] == [];
  }

  /** Stripping a concatenation strips each part, so the kept characters stay in their order. */
  lemma {:induction false} StripAppend(a: string, b: string)
    ensures StripDisallowed(a + b) == StripDisallowed(a) + StripDisallowed(b)
  {
    if a != [] {
      assert (a + b)[0] == a[0];
      assert (a + b)[1..] == a[1..] + b;
      StripAppend(a[1..], b);
    } else {
      assert a + b == b;
    }
  }

  lemma KeyChars(k: string)
    requires IsKey(k)
    ensures NoWhitespace(k)
  {
  }

  /** A normalised key is a fixed point of every stage, hence of the whole normaliser. */
  lemma NormalizeKeyFixed(k: string)
    requires IsKey(k)
    ensures NormalizeKey(k) == k
  {
    KeyChars(k);
    TrimIdentity(k);
    var u := ToUpper(k);
    assert u == k by {
      forall i | 0 <= i < |k| ensures u[i] == k[i] {
        assert IsKeyChar(k[i]);
      }
    }
    CollapseIdentity(k);
    StripIdentity(k);
  }

  /** Normalising a key again changes nothing. */
  lemma NormalizeKeyIdempotent(s: string)
    ensures NormalizeKey(NormalizeKey(s)) == NormalizeKey(s)
  {
    NormalizeKeyFixed(NormalizeKey(s));
  }

  /** A missing or blank label (the source's `|| ""` default included) normalises to the empty key. */
  lemma NormalizeBlank(s: string)
    requires AllWhitespace(s)
    ensures NormalizeKey(s) == []
  {
    TrimBlank(s);
  }

  lemma {:induction false} TrimStartUpper(s: string)
    ensures TrimStart(ToUpper(s)) == ToUpper(TrimStart(s))
  {
    if s != [] && IsWhitespace(s[0]) {
      assert ToUpper(s)[1..] == ToUpper(s[1..]);
      TrimStartUpper(s[1..]);
    }
  }

  lemma {:induction false} TrimEndUpper(s: string)
    ensures TrimEnd(ToUpper(s)) == ToUpper(TrimEnd(s))
  {
    if s != [] && IsWhitespace(s[|s| - 1]) {
      assert ToUpper(s)[..|s| - 1] == ToUpper(s[..|s| - 1]);
      TrimEndUpper(s[..|s| - 1]);
    }
  }

  /** Trimming and upper-casing commute, so upper-casing first cannot change the key. */
  lemma TrimUpper(s: string)
    ensures Trim(ToUpper(s)) == ToUpper(Trim(s))
  {
    TrimStartUpper(s);
    TrimEndUpper(TrimStart(s));
  }

  /** Case-insensitivity: labels that differ only in the case of ASCII letters give the same key. */
  lemma NormalizeKeyCaseInsensitive(s: string, t: string)
    requires ToUpper(s) == ToUpper(t)
    ensures NormalizeKey(s) == NormalizeKey(t)
  {
    TrimUpper(s);
    TrimUpper(t);
    assert ToUpper(ToUpper(s)) == ToUpper(s);
    assert ToUpper(ToUpper(t)) == ToUpper(t);
  }

  /** A whitespace run at the front collapses to one underscore, whatever follows it. */
  lemma CollapseLeadingRun(w: string, b: string)
    requires w != [] && AllWhitespace(w)
    ensures CollapseWhitespace(w + b) == "_" + CollapseWhitespace(TrimStart(b))
  {
    TrimStartAppend(w, b);
  }

  lemma CollapseBlankPrefix(a: string, w: string, b: string)
    requires AllWhitespace(a) && w != [] && AllWhitespace(w)
    ensures CollapseWhitespace(a + (w + b)) == "_" + CollapseWhitespace(TrimStart(b))
  {
    assert a + (w + b) == (a + w) + b;
    assert AllWhitespace(a + w) by {
      forall i | 0 <= i < |a + w| ensures IsWhitespace((a + w)[i]) {
        if i >= |a| { assert (a + w)[i] == w[i - |a|]; }
      }
    }
    CollapseLeadingRun(a + w, b);
  }

  lemma CollapseNonSpaceHead(a: string, t: string)
    requires a != [] && !IsWhitespace(a[0])
    ensures CollapseWhitespace(a + t) == [a[0]] + CollapseWhitespace(a[1..] + t)
  {
    assert (a + t)[1..] == a[1..] + t;
  }

  lemma CollapseSpaceHead(a: string, t: string)
    requires a != [] && IsWhitespace(a[0]) && !AllWhitespace(a)
    ensures |TrimStart(a)| < |a|
    ensures CollapseWhitespace(a + t) == "_" + CollapseWhitespace(TrimStart(a) + t)
  {
    TrimStartAppend(a, t);
  }

  /** The collapsing stage sees only that a whitespace run is there, not how long it is or what it holds. */
  lemma {:induction false} CollapseRun(a: string, w1: string, w2: string, b: string)
    requires w1 != [] && AllWhitespace(w1)
    requires w2 != [] && AllWhitespace(w2)
    ensures CollapseWhitespace(a + (w1 + b)) == CollapseWhitespace(a + (w2 + b))
    decreases |a|
  {
    if a == [] {
      assert a + (w1 + b) == w1 + b && a + (w2 + b) == w2 + b;
      CollapseLeadingRun(w1, b);
      CollapseLeadingRun(w2, b);
    } else if !IsWhitespace(a[0]) {
      CollapseNonSpaceHead(a, w1 + b);
      CollapseNonSpaceHead(a, w2 + b);
      CollapseRun(a[1..], w1, w2, b);
    } else if AllWhitespace(a) {
      CollapseBlankPrefix(a, w1, b);
      CollapseBlankPrefix(a, w2, b);
    } else {
      CollapseSpaceHead(a, w1 + b);
      CollapseSpaceHead(a, w2 + b);
      CollapseRun(TrimStart(a), w1, w2, b);
    }
  }

  lemma UpperWhitespace(w: string)
    requires AllWhitespace(w)
    ensures ToUpper(w) == w
  {
  }

  /** How trimming treats a label with a whitespace run `w` between `a` and `b`. */
  lemma TrimAroundRun(a: string, w: string, b: string)
    requires w != [] && AllWhitespace(w)
    ensures AllWhitespace(a) ==> Trim(a + (w + b)) == Trim(b)
    ensures !AllWhitespace(a) && AllWhitespace(b) ==> Trim(a + (w + b)) == Trim(a)
    ensures !AllWhitespace(a) && !AllWhitespace(b) ==>
              Trim(a + (w + b)) == TrimStart(a) + (w + TrimEnd(b))
  {
    TrimStartAppend(w, b);
    TrimStartAppend(a, w + b);
    if !AllWhitespace(a) {
      TrimEndAroundRun(TrimStart(a), w, b);
    }
  }

  lemma TrimEndAroundRun(a': string, w: string, b: string)
    requires w != [] && AllWhitespace(w)
    ensures AllWhitespace(b) ==> TrimEnd(a' + (w + b)) == TrimEnd(a')
    ensures !AllWhitespace(b) ==> TrimEnd(a' + (w + b)) == a' + (w + TrimEnd(b))
  {
    assert a' + (w + b) == (a' + w) + b;
    TrimEndAppend(a' + w, b);
    if AllWhitespace(b) {
      TrimEndAppend(a', w);
    } else {
      assert (a' + w) + TrimEnd(b) == a' + (w + TrimEnd(b));
    }
  }

  lemma UpperAppend(a: string, b: string)
    ensures ToUpper(a + b) == ToUpper(a) + ToUpper(b)
  {
  }

  /**
   * Whitespace-run insensitivity: replacing one run of whitespace by any other
   * non-empty run, anywhere in the label, leaves the key unchanged.
   */
  lemma NormalizeKeyWhitespaceRun(a: string, w1: string, w2: string, b: string)
    requires w1 != [] && AllWhitespace(w1)
    requires w2 != [] && AllWhitespace(w2)
    ensures NormalizeKey(a + w1 + b) == NormalizeKey(a + w2 + b)
  {
    assert a + w1 + b == a + (w1 + b) && a + w2 + b == a + (w2 + b);
    TrimAroundRun(a, w1, b);
    TrimAroundRun(a, w2, b);
    if !AllWhitespace(a) && !AllWhitespace(b) {
      var a', b' := ToUpper(TrimStart(a)), ToUpper(TrimEnd(b));
      UpperWhitespace(w1);
      UpperWhitespace(w2);
      UpperAppend(TrimStart(a), w1 + TrimEnd(b));
      UpperAppend(TrimStart(a), w2 + TrimEnd(b));
      UpperAppend(w1, TrimEnd(b));
      UpperAppend(w2, TrimEnd(b));
      CollapseRun(a', w1, w2, b');
    }
  }

  /** Whitespace added before or after a label does not change its key. */
  lemma NormalizeKeyPadding(w1: string, s: string, w2: string)
    requires AllWhitespace(w1) && AllWhitespace(w2)
    ensures NormalizeKey(w1 + s + w2) == NormalizeKey(s)
  {
    TrimPadding(w1, s, w2);
  }

  /** Between two words without whitespace, a whitespace run becomes exactly one underscore. */
  lemma {:induction false} CollapseJoin(a: string, w: string, b: string)
    requires NoWhitespace(a) && NoWhitespace(b)
    requires w != [] && AllWhitespace(w)
    ensures CollapseWhitespace(a + w + b) == a + "_" + b
    decreases |a|
  {
    if a == [] {
      assert a + w + b == w + b;
      CollapseLeadingRun(w, b);
      CollapseIdentity(b);
    } else {
      assert a + w + b == a + (w + b);
      CollapseNonSpaceHead(a, w + b);
      assert a[1..] + (w + b) == a[1..] + w + b;
      CollapseJoin(a[1..], w, b);
      assert a + "_" + b == [a[0]] + (a[1..] + "_" + b);
    }
  }

  lemma UpperKeyNoWhitespace(a: string)
    requires IsKey(ToUpper(a))
    ensures NoWhitespace(a)
  {
    forall i | 0 <= i < |a| ensures !IsWhitespace(a[i]) {
      assert IsKeyChar(ToUpper(a)[i]);
    }
  }

  /** A single word, padded with whitespace, keys to the word upper-cased. */
  lemma WordKey(p1: string, a: string, p2: string)
    requires AllWhitespace(p1) && AllWhitespace(p2)
    requires IsKey(ToUpper(a))
    ensures NormalizeKey(p1 + a + p2) == ToUpper(a)
  {
    NormalizeKeyPadding(p1, a, p2);
    UpperKeyNoWhitespace(a);
    if a != [] {
      TrimIdentity(a);
    }
    NormalizeKeyFixed(ToUpper(a));
    KeyChars(ToUpper(a));
    CollapseIdentity(ToUpper(a));
    StripIdentity(ToUpper(a));
  }

  /** Two words separated by any whitespace run, padded with whitespace, key to the upper-cased words joined by `_`. */
  lemma TwoWordKey(p1: string, a: string, w: string, b: string, p2: string)
    requires AllWhitespace(p1) && AllWhitespace(p2)
    requires w != [] && AllWhitespace(w)
    requires a != [] && b != [] && IsKey(ToUpper(a)) && IsKey(ToUpper(b))
    ensures NormalizeKey(p1 + a + w + b + p2) == ToUpper(a) + "_" + ToUpper(b)
  {
    assert p1 + a + w + b + p2 == p1 + (a + w + b) + p2;
    NormalizeKeyPadding(p1, a + w + b, p2);
    UpperKeyNoWhitespace(a);
    UpperKeyNoWhitespace(b);
    TrimIdentity(a + w + b);
    UpperAppend(a + w, b);
    UpperAppend(a, w);
    UpperWhitespace(w);
    KeyChars(ToUpper(a));
    KeyChars(ToUpper(b));
    CollapseJoin(ToUpper(a), w, ToUpper(b));
    var k := ToUpper(a) + "_" + ToUpper(b);
    assert IsKey(k) by {
      forall i | 0 <= i < |k| ensures IsKeyChar(k[i]) {
        if i < |ToUpper(a)| { assert k[i] == ToUpper(a)[i]; }
        else if i > |ToUpper(a)| { assert k[i] == ToUpper(b)[i - |ToUpper(a)| - 1]; }
      }
    }
    StripIdentity(k);
  }
}
