/**
 * String helpers of src/text.ts: escaping a string for use inside a
 * regular expression, and camel-casing a phrase into an identifier.
 */
module Text {
  import opened Js

  // ---------------------------------------------------------------------
  // escapeRegExp
  // ---------------------------------------------------------------------

  /** The 16 characters that `escapeRegExp` escapes. */
  predicate IsSpecial(c: char) {
    c in "-[]/{}()*+?.\\^$|"
  }

  /** How many characters of `s` get escaped. */
  function CountSpecial(s: string): nat {
    if s == [] then 0 else (if IsSpecial(s[0]) then 1 else 0) + CountSpecial(s[1..])
  }

  /** One character as `escapeRegExp` emits it. */
  function EscapeChar(c: char): string {
    if IsSpecial(c) then ['\\', c] else [c]
  }

  /**
   * `escapeRegExp(str)`: every special character is preceded by a
   * backslash; every other character is copied, in order.
   */
  function EscapeRegExp(s: string): (r: string)
    ensures |r| == |s| + CountSpecial(s)
  {
    if s == [] then [] else EscapeChar(s[0]) + EscapeRegExp(s[1..])
  }

  /** Deletes the backslash in front of each escaped character. */
  function Unescape(t: string): string {
    if |t| >= 2 && t[0] == '\\' then [t[1]] + Unescape(t[2..])
    else if t == [] then []
    else [t[0]] + Unescape(t[1..])
  }

  /** `t` reads as plain non-special characters and backslash-escaped special ones. */
  predicate WellEscaped(t: string) {
    if t == [] then true
    else if IsSpecial(t[0]) then t[0] == '\\' && |t| >= 2 && IsSpecial(t[1]) && WellEscaped(t[2..])
    else WellEscaped(t[1..])
  }

  /** Deleting the inserted backslashes gives back the input. */
  lemma {:induction false} UnescapeEscape(s: string)
    ensures Unescape(EscapeRegExp(s)) == s
  {
    if s != [] {
      UnescapeEscape(s[1..]);
      var rest := EscapeRegExp(s[1..]);
      if IsSpecial(s[0]) {
        assert EscapeRegExp(s) == ['\\', s[0]] + rest;
        assert (['\\', s[0]] + rest)[2..] == rest;
      } else {
        assert EscapeRegExp(s) == [s[0]] + rest;
        assert ([s[0]] + rest)[1..] == rest;
      }
    }
  }

  /** Distinct inputs escape to distinct outputs. */
  lemma EscapeRegExpInjective(s: string, s': string)
    requires EscapeRegExp(s) == EscapeRegExp(s')
    ensures s == s'
  {
    UnescapeEscape(s);
    UnescapeEscape(s');
  }

  /** Every output of `escapeRegExp` is well escaped. */
  lemma {:induction false} EscapeIsWellEscaped(s: string)
    ensures WellEscaped(EscapeRegExp(s))
  {
    if s != [] {
      EscapeIsWellEscaped(s[1..]);
      var rest := EscapeRegExp(s[1..]);
      if IsSpecial(s[0]) {
        assert EscapeRegExp(s) == ['\\', s[0]] + rest;
        assert (['\\', s[0]] + rest)[2..] == rest;
      } else {
        assert EscapeRegExp(s) == [s[0]] + rest;
        assert ([s[0]] + rest)[1..] == rest;
      }
    }
  }

  /** Every well-escaped string is the escape of its unescaped form. */
  lemma {:induction false} WellEscapedIsEscape(t: string)
    requires WellEscaped(t)
    ensures EscapeRegExp(Unescape(t)) == t
  {
    if t != [] {
      if IsSpecial(t[0]) {
        WellEscapedIsEscape(t[2..]);
        assert Unescape(t) == [t[1]] + Unescape(t[2..]);
        assert ([t[1]] + Unescape(t[2..]))[1..] == Unescape(t[2..]);
        assert t == [t[0], t[1]] + t[2..];
      } else {
        WellEscapedIsEscape(t[1..]);
        assert Unescape(t) == [t[0]] + Unescape(t[1..]);
        assert ([t[0]] + Unescape(t[1..]))[1..] == Unescape(t[1..]);
        assert t == [t[0]] + t[1..];
      }
    }
  }

  // ---------------------------------------------------------------------
  // camelize
  // ---------------------------------------------------------------------

  /** `\w`: an ASCII letter, a digit or `_`. */
  predicate IsWord(c: char) {
    IsUpper(c) || IsLower(c) || '0' <= c <= '9' || c == '_'
  }

  /** The combining diacritical marks U+0300 to U+036F. */
  predicate IsCombiningMark(c: char) {
    '\U{0300}' <= c <= '\U{036f}'
  }

  /** `\s`: the characters JavaScript regular expressions treat as white space. */
  predicate IsSpace(c: char) {
    || c == '\t' || c == '\n' || c == '\U{0b}' || c == '\U{0c}' || c == '\r' || c == ' '
    || c == '\U{a0}' || c == '\U{1680}' || '\U{2000}' <= c <= '\U{200a}'
    || c == '\U{2028}' || c == '\U{2029}' || c == '\U{202f}' || c == '\U{205f}'
    || c == '\U{3000}' || c == '\U{feff}'
  }

  lemma WordIsNotSpace(c: char)
    ensures IsWord(c) ==> NotSpace(c)
  {
  }

  /** What the first step keeps. */
  predicate NotMark(c: char) {
    !IsCombiningMark(c)
  }

  /** What the third step keeps. */
  predicate NotSpace(c: char) {
    !IsSpace(c)
  }

  /** The characters of `s` that satisfy `keep`, in order: a `replace` with `''`. */
  function Filter(s: string, keep: char -> bool): (r: string)
    ensures |r| <= |s|
    ensures forall i | 0 <= i < |r| :: keep(r[i])
  {
    if s == [] then [] else (if keep(s[0]) then [s[0]] else []) + Filter(s[1..], keep)
  }

  /** Filtering with a stricter test after a weaker one is filtering with the stricter one. */
  lemma {:induction false} FilterTwice(s: string, weak: char -> bool, strict: char -> bool)
    requires forall c :: strict(c) ==> weak(c)
    ensures Filter(Filter(s, weak), strict) == Filter(s, strict)
  {
    if s != [] {
      FilterTwice(s[1..], weak, strict);
      var rest := Filter(s[1..], weak);
      if weak(s[0]) {
        assert Filter(s, weak) == [s[0]] + rest;
        assert ([s[0]] + rest)[1..] == rest;
        assert Filter([s[0]] + rest, strict) == (if strict(s[0]) then [s[0]] else []) + Filter(rest, strict);
      } else {
        assert Filter(s, weak) == rest;
      }
    }
  }

  /** A filter that every character passes changes nothing. */
  lemma {:induction false} FilterKeepsAll(s: string, keep: char -> bool)
    requires forall i | 0 <= i < |s| :: keep(s[i])
    ensures Filter(s, keep) == s
  {
    if s != [] {
      FilterKeepsAll(s[1..], keep);
    }
  }

  /**
   * The pattern `^\w|[A-Z]|\b\w` matches the character at `p`: a word
   * character that starts the string or follows a non-word character, or
   * any capital letter.
   */
  predicate StartsWord(s: string, p: nat)
    requires p < |s|
  {
    (IsWord(s[p]) && (p == 0 || !IsWord(s[p - 1]))) || IsUpper(s[p])
  }

  /** The second step: a matched character is lower-cased at index 0 and upper-cased elsewhere. */
  function Capitalize(s: string): (r: string)
    ensures |r| == |s|
    ensures forall p | 0 <= p < |s| :: IsWord(r[p]) <==> IsWord(s[p])
  {
    seq(|s|, p requires 0 <= p < |s| =>
      if !StartsWord(s, p) then s[p]
      else if p == 0 then LowerChar(s[p])
      else UpperChar(s[p]))
  }

  /**
   * `camelize(str)`. `normalize` stands for `String.prototype.normalize('NFD')`.
   */
  function Camelize(str: string, normalize: string -> string): (r: string)
    ensures |r| <= |normalize(str)|
    ensures forall i | 0 <= i < |r| :: IsWord(r[i])
  {
    var stripped := Filter(normalize(str), NotMark);
    var capitalized := Capitalize(stripped);
    var compact := Filter(capitalized, NotSpace);
    Filter(compact, IsWord)
  }

  /** The result holds only `[A-Za-z0-9_]`, in particular no white space. */
  lemma CamelizeAlphabet(str: string, normalize: string -> string)
    ensures forall i | 0 <= i < |Camelize(str, normalize)| ::
      IsWord(Camelize(str, normalize)[i]) && !IsSpace(Camelize(str, normalize)[i])
  {
  }

  /** Removing white space is subsumed by the final whitelist: white space is not `\w`. */
  lemma CamelizeSpaceStepRedundant(str: string, normalize: string -> string)
    ensures Camelize(str, normalize) ==
      Filter(Capitalize(Filter(normalize(str), NotMark)), IsWord)
  {
    var capitalized := Capitalize(Filter(normalize(str), NotMark));
    FilterTwice(capitalized, NotSpace, IsWord);
  }

  /**
   * An identifier already in camel case (word characters only, not starting
   * with a capital) comes back unchanged.
   */
  lemma CamelizeFixesCamelCase(s: string, normalize: string -> string)
    requires normalize(s) == s
    requires forall i | 0 <= i < |s| :: IsWord(s[i])
    requires s == [] || !IsUpper(s[0])
    ensures Camelize(s, normalize) == s
  {
    FilterKeepsAll(s, NotMark);
    assert Capitalize(s) == s by {
      forall p | 0 <= p < |s|
        ensures Capitalize(s)[p] == s[p]
      {
        if p > 0 && StartsWord(s, p) {
          assert IsUpper(s[p]);
        }
      }
    }
    FilterKeepsAll(s, NotSpace);
    FilterKeepsAll(s, IsWord);
  }

  /** All characters of `s` are small ASCII letters. */
  predicate AllLower(s: string) {
    forall i | 0 <= i < |s| :: IsLower(s[i])
  }

  /**
   * Two small-letter words separated by a blank are joined, the second
   * starting with a capital and the first keeping its small letter.
   */
  lemma CamelizeTwoWords(a: string, b: string, normalize: string -> string)
    requires a != [] && b != [] && AllLower(a) && AllLower(b)
    requires normalize(a + " " + b) == a + " " + b
    ensures Camelize(a + " " + b, normalize) == a + [UpperChar(b[0])] + b[1..]
  {
    var s := a + " " + b;
    var joined := [UpperChar(b[0])] + b[1..];
    StripTwoWords(a, b);
    CapitalizeTwoWords(a, b);
    CompactTwoWords(a, joined);
    calc {
      Camelize(s, normalize);
      Filter(Filter(Capitalize(Filter(s, NotMark)), NotSpace), IsWord);
      Filter(Filter(a + " " + joined, NotSpace), IsWord);
      a + joined;
    }
    assert a + joined == a + [UpperChar(b[0])] + b[1..];
  }

  lemma StripTwoWords(a: string, b: string)
    requires AllLower(a) && AllLower(b)
    ensures Filter(a + " " + b, NotMark) == a + " " + b
  {
    var s := a + " " + b;
    forall i | 0 <= i < |s|
      ensures NotMark(s[i])
    {
      if i < |a| {
        assert s[i] == a[i];
      } else if i > |a| {
        assert s[i] == b[i - |a| - 1];
      }
    }
    FilterKeepsAll(s, NotMark);
  }

  lemma CompactTwoWords(a: string, joined: string)
    requires AllLower(a) && forall i | 0 <= i < |joined| :: IsWord(joined[i])
    ensures Filter(Filter(a + " " + joined, NotSpace), IsWord) == a + joined
  {
    forall i | 0 <= i < |a|
      ensures NotSpace(a[i])
    {
      WordIsNotSpace(a[i]);
    }
    forall i | 0 <= i < |joined|
      ensures NotSpace(joined[i])
    {
      WordIsNotSpace(joined[i]);
    }
    DropBlank(a, joined);
    var compact := a + joined;
    forall i | 0 <= i < |compact|
      ensures IsWord(compact[i])
    {
      if i < |a| {
        assert compact[i] == a[i];
      } else {
        assert compact[i] == joined[i - |a|];
      }
    }
    FilterKeepsAll(compact, IsWord);
  }

  lemma CapitalizeTwoWords(a: string, b: string)
    requires a != [] && b != [] && AllLower(a) && AllLower(b)
    ensures Capitalize(a + " " + b) == a + " " + ([UpperChar(b[0])] + b[1..])
  {
    var s := a + " " + b;
    var t := a + " " + ([UpperChar(b[0])] + b[1..]);
    forall p | 0 <= p < |s|
      ensures Capitalize(s)[p] == t[p]
    {
      if p < |a| {
        assert s[p] == a[p] == t[p];
        if p > 0 {
          assert s[p - 1] == a[p - 1];
        }
      } else if p == |a| {
        assert s[p] == ' ' == t[p];
      } else if p == |a| + 1 {
        assert s[p] == b[0] && s[p - 1] == ' ';
      } else {
        assert s[p] == b[p - |a| - 1] == t[p];
        assert s[p - 1] == b[p - |a| - 2];
      }
    }
  }

  /** Dropping the one blank between two space-free parts joins them. */
  lemma {:induction false} DropBlank(a: string, b: string)
    requires forall i | 0 <= i < |a| :: NotSpace(a[i])
    requires forall i | 0 <= i < |b| :: NotSpace(b[i])
    ensures Filter(a + " " + b, NotSpace) == a + b
  {
    if a == [] {
      assert (a + " " + b)[1..] == b;
      FilterKeepsAll(b, NotSpace);
    } else {
      DropBlank(a[1..], b);
      assert (a + " " + b)[1..] == a[1..] + " " + b;
      assert a + b == [a[0]] + (a[1..] + b);
    }
  }

  /** A leading blank makes the first word start with a capital. */
  lemma CamelizeLeadingBlank(normalize: string -> string)
    requires normalize(" to") == " to"
    ensures Camelize(" to", normalize) == "To"
  {
    var s := " to";
    FilterKeepsAll(s, NotMark);
    var c := Capitalize(s);
    assert !StartsWord(s, 0) && StartsWord(s, 1) && !StartsWord(s, 2);
    assert c == [' ', UpperChar('t'), 'o'];
    assert c == " To";
    assert Filter(c, NotSpace) == "To" by {
      assert Filter(c, NotSpace) == Filter(c[1..], NotSpace);
      assert c[1..] == "To";
      FilterKeepsAll(c[1..], NotSpace);
    }
    FilterKeepsAll("To", IsWord);
  }
}
