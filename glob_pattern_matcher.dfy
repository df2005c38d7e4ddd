/** `GlobPatternMatcher`: the translation of a `shExpMatch` glob into the text of a
    Java regular expression. */
module GlobPatternMatcher {
  import opened Wrappers
  import opened JavaStrings
  import opened Sequences

  /** The characters the translation rewrites; every other one is copied. */
  predicate IsGlobSpecial(c: char)
  {
    c == '*' || c == '?' || c == '.' || c == '\\' || c == '!'
  }

  /** The regex text for one glob character; `afterBracket` says whether the
      character before it is '['. */
  function Translate(c: char, afterBracket: bool): (r: string)
    ensures !IsGlobSpecial(c) ==> r == [c]
    ensures |r| > 0
  {
    match c
    case '*' => ".*?"
    case '?' => ".{1}"
    case '.' => "\\."
    case '\\' => "\\\\"
    case '!' => if afterBracket then "^" else "!"
    case _ => [c]
  }

  /** The translation of `s`, character by character, when the character before `s`
      was '[' exactly when `afterBracket` holds. */
  function BodyAfter(s: string, afterBracket: bool): (r: string)
    ensures |r| >= |s|
  {
    if |s| == 0 then ""
    else Translate(s[0], afterBracket) + BodyAfter(s[1..], s[0] == '[')
  }

  /** The translation of a whole glob, between the anchors. */
  function Body(s: string): (r: string)
    ensures |r| >= |s|
  {
    BodyAfter(s, false)
  }

  /** What `convertGlobToRegEx` returns. */
  function GlobToRegEx(s: string): (r: string)
    ensures |r| >= |s| + 2 && r[0] == '^' && r[|r| - 1] == '$'
  {
    "^" + Body(s) + "$"
  }

  /** The translation of a concatenation is the concatenation of the translations,
      the second one seeing whether the first ended with '['. */
  lemma {:induction false} BodyAfterAppend(s: string, t: string, afterBracket: bool)
    ensures BodyAfter(s + t, afterBracket) ==
      BodyAfter(s, afterBracket) + BodyAfter(t, if |s| == 0 then afterBracket else s[|s| - 1] == '[')
  {
    if |s| == 0 {
      assert s + t == t;
    } else {
      var piece := Translate(s[0], afterBracket);
      assert (s + t)[0] == s[0] && (s + t)[1..] == s[1..] + t;
      assert BodyAfter(s + t, afterBracket) == piece + BodyAfter(s[1..] + t, s[0] == '[');
      BodyAfterAppend(s[1..], t, s[0] == '[');
      AppendAssociative(piece, BodyAfter(s[1..], s[0] == '['),
                        BodyAfter(t, if |s| == 1 then s[0] == '[' else s[|s| - 1] == '['));
    }
  }

  /** Extending the glob by one character extends the translation by that
      character's piece. */
  lemma BodySnoc(s: string, c: char)
    ensures Body(s + [c]) == Body(s) + Translate(c, |s| > 0 && s[|s| - 1] == '[')
  {
    BodyAfterAppend(s, [c], false);
  }

  /** `convertGlobToRegEx`: "^", then for each character its piece ('*' to ".*?",
      '?' to ".{1}", '.' and '\' escaped, '!' right after '[' to '^', anything else
      copied), then "$". */
  method ConvertGlobToRegEx(globExpression: string) returns (regex: string)
    ensures regex == GlobToRegEx(globExpression)
    ensures |regex| >= 2 && regex[0] == '^' && regex[|regex| - 1] == '$'
  {
    var sb := "^";
    for i := 0 to |globExpression|
      invariant sb == "^" + Body(globExpression[..i])
    {
      var c := globExpression[i];
      assert globExpression[..i + 1] == globExpression[..i] + [c];
      BodySnoc(globExpression[..i], c);
      if c == '*' {
        sb := sb + ".*?";
      } else if c == '?' {
        sb := sb + ".{1}";
      } else if c == '.' {
        sb := sb + "\\.";
      } else if c == '\\' {
        sb := sb + "\\\\";
      } else if c == '!' {
        if i > 0 && globExpression[i - 1] == '[' {
          sb := sb + "^";
        } else {
          sb := sb + [c];
        }
      } else {
        sb := sb + [c];
      }
    }
    assert globExpression[..|globExpression|] == globExpression;
    sb := sb + "$";
    regex := sb;
  }

  /** A glob without special characters matches exactly itself: it is copied. */
  lemma {:induction false} BodyOfLiteral(s: string, afterBracket: bool)
    requires forall k :: 0 <= k < |s| ==> !IsGlobSpecial(s[k])
    ensures BodyAfter(s, afterBracket) == s
  {
    if |s| > 0 {
      BodyOfLiteral(s[1..], s[0] == '[');
      assert s == [s[0]] + s[1..];
    }
  }

  /** ... so its regex is the glob itself between the anchors. */
  lemma GlobOfLiteral(s: string)
    requires forall k :: 0 <= k < |s| ==> !IsGlobSpecial(s[k])
    ensures GlobToRegEx(s) == "^" + s + "$"
  {
    BodyOfLiteral(s, false);
  }

  /** "[!" and "[^" both open a negated character class. */
  lemma NegatedClassSpellings(t: string)
    ensures Body("[!" + t) == Body("[^" + t)
  {
    BodyAfterAppend("[!", t, false);
    BodyAfterAppend("[^", t, false);
  }

  /** A '!' anywhere but right after '[' stays a literal '!'. */
  lemma ExclamationOutsideClass(s: string, t: string)
    requires |s| == 0 || s[|s| - 1] != '['
    ensures Body(s + "!" + t) == Body(s) + "!" + BodyAfter(t, false)
  {
    var withBang := s + "!";
    assert withBang[|withBang| - 1] == '!';
    BodyAfterAppend(withBang, t, false);
    BodyAfterAppend(s, "!", false);
    assert BodyAfter("!", false) == "!";
  }

  /** The usual PAC pattern: any host in a domain written without special
      characters. */
  lemma GlobExample(domain: string)
    requires forall k :: 0 <= k < |domain| ==> !IsGlobSpecial(domain[k])
    ensures GlobToRegEx("*." + domain) == "^" + (".*?\\." + domain) + "$"
  {
    BodyAfterAppend("*.", domain, false);
    BodyOfLiteral(domain, false);
    assert BodyAfter("*.", false) == ".*?\\.";
  }

  /** `toPattern`: a null glob is refused; otherwise the regex of the trimmed glob. */
  function ToPattern(glob: Option<string>): (r: Result<string, string>)
    ensures r.Failure? <==> glob.None?
    ensures glob.Some? ==> r.value == GlobToRegEx(Trim(glob.value))
  {
    match glob
    case None => Failure("glob cannot be null")
    case Some(g) => Success(GlobToRegEx(Trim(g)))
  }

  /** Blanks around a glob do not change its pattern. */
  lemma ToPatternIgnoresBlanks(g: string)
    ensures ToPattern(Some(g)) == ToPattern(Some(Trim(g)))
  {
    TrimIdempotent(g);
  }
}
