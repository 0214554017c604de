/** How both versions of the resolver read task settings: a flag property is "set" only
    when it spells "true", a list property is split on runs of whitespace, the Gradle home
    is taken from the explicit setting before the environment map, and an operating system
    name denotes Windows when it mentions "win". The two Java classes hold these as
    separate, identical private methods; here each is defined once. */
module TaskProperties {
  import opened JavaLang

  /** The environment variable naming the Gradle installation. */
  const GRADLE_HOME := "GRADLE_HOME"

  /** `isSet(value)`: `!StringUtils.isBlank(value) && Boolean.valueOf(value)`. The blank
      test adds nothing: the value is set exactly when it is "true" in some letter case. */
  function IsSet(value: Option<string>): (r: bool)
    ensures r <==> value.Some? && ToLowerCase(value.value) == "true"
  {
    assert ToLowerCase("true") == "true";
    assert BooleanValueOf(value) ==> !IsBlank(value) by {
      if BooleanValueOf(value) {
        assert ToLower(value.value[0]) == 't';
        assert !IsWhitespace(value.value[0]);
      }
    }
    !IsBlank(value) && BooleanValueOf(value)
  }

  /** Only "true", in any letter case and with nothing around it, sets a flag. */
  lemma IsSetExamples()
    ensures IsSet(Some("true")) && IsSet(Some("TRUE")) && IsSet(Some("True")) && IsSet(Some("tRuE"))
    ensures !IsSet(None) && !IsSet(Some("")) && !IsSet(Some("   "))
    ensures !IsSet(Some("false")) && !IsSet(Some("yes")) && !IsSet(Some("1")) && !IsSet(Some(" true"))
  {
    assert ToLowerCase("TRUE") == "true";
    assert ToLowerCase("True") == "true";
    assert ToLowerCase("tRuE") == "true";
    assert |ToLowerCase(" true")| == 5;
  }

  /** `!StringUtils.isBlank(os) && os.toLowerCase().contains("win")`. The blank test adds
      nothing here either: Windows is meant exactly when "win" occurs in the lower-cased name. */
  function IsWindowsName(os: Option<string>): (r: bool)
    ensures r ==> os.Some? && exists i :: OccursAt(ToLowerCase(os.value), "win", i)
    ensures os.Some? && (exists i :: OccursAt(ToLowerCase(os.value), "win", i)) ==> r
  {
    if os.None? then false
    else
      var found := Contains(ToLowerCase(os.value), "win");
      assert found ==> !IsBlank(os) by {
        if found { WinNameIsNotBlank(os.value); }
      }
      !IsBlank(os) && found
  }

  lemma WinNameIsNotBlank(os: string)
    requires exists i :: OccursAt(ToLowerCase(os), "win", i)
    ensures !IsBlank(Some(os))
  {
    var lower := ToLowerCase(os);
    var i :| OccursAt(lower, "win", i);
    assert lower[i..i + 3] == "win";
    assert lower[i] == 'w';
    assert !IsWhitespace(os[i]);
  }

  /** Windows names match in any letter case. */
  lemma WindowsNames(windows: string, upper: string)
    requires windows == "Windows 10" && upper == "WINDOWS 10"
    ensures IsWindowsName(Some(windows)) && IsWindowsName(Some(upper))
  {
    assert ToLowerCase(windows)[0..3] == "win";
    assert OccursAt(ToLowerCase(windows), "win", 0);
    assert ToLowerCase(upper)[0..3] == "win";
    assert OccursAt(ToLowerCase(upper), "win", 0);
  }

  /** "Darwin" contains "win", so a Mac is taken for Windows. */
  lemma DarwinCountsAsWindows(darwin: string)
    requires darwin == "Darwin"
    ensures IsWindowsName(Some(darwin))
  {
    assert ToLowerCase(darwin)[3..6] == "win";
    assert OccursAt(ToLowerCase(darwin), "win", 3);
  }

  /** Blank, missing and other names do not denote Windows. */
  lemma NonWindowsNames(linux: string)
    requires linux == "Linux"
    ensures !IsWindowsName(Some(linux)) && !IsWindowsName(Some("")) && !IsWindowsName(None)
  {
    assert ToLowerCase(linux) == "linux";
    assert !Contains("linux", "win");
  }

  /** `getGradleHome()`: the explicit setting when it is not blank, otherwise the
      environment map's `GRADLE_HOME` when that is not blank, otherwise null. The result
      is never a blank string. */
  function GradleHome(gradleHome: Option<string>, environment: map<string, string>): (r: Option<string>)
    ensures r.None? || !IsBlank(r)
    ensures !IsBlank(gradleHome) ==> r == gradleHome
    ensures IsBlank(gradleHome) && !IsBlank(Get(environment, GRADLE_HOME)) ==> r == Get(environment, GRADLE_HOME)
    ensures r.None? <==> IsBlank(gradleHome) && IsBlank(Get(environment, GRADLE_HOME))
  {
    if !IsBlank(gradleHome) then gradleHome
    else if !IsBlank(Get(environment, GRADLE_HOME)) then Get(environment, GRADLE_HOME)
    else None
  }

  /** The tokens a list property contributes (`withTasks`, `withAdditionalOptions`):
      none for a blank or missing value, otherwise `value.split("\\s+")`. For a non-blank
      value they are at least one token, hold no whitespace, keep every other character
      in order, and only the first may be empty (exactly when the value starts with
      whitespace). */
  function ValueTokens(value: Option<string>): (r: seq<string>)
    ensures IsBlank(value) ==> r == []
    ensures !IsBlank(value) ==> |r| >= 1 && Concat(r) == RemoveSpaces(value.value)
    ensures forall i :: 0 <= i < |r| ==> !HasSpace(r[i])
    ensures forall i :: 0 < i < |r| ==> r[i] != ""
    ensures !IsBlank(value) ==> (r[0] == "" <==> IsSpace(value.value[0]))
  {
    if IsBlank(value) then []
    else
      SplitOnSpacesShape(value.value);
      assert !AllSpaces(value.value) by {
        var k :| 0 <= k < |value.value| && !IsWhitespace(value.value[k]);
        assert !IsSpace(value.value[k]);
      }
      SplitOnSpaces(value.value)
  }

  /** Splitting a list property undoes joining: words separated by runs of `\s`, with
      optional runs before and after, come back as those words, after an empty first
      token when there is a leading run ("clean   build" gives "clean" and "build",
      " clean" gives "" and "clean"). The joined value must not be blank in Java's wider
      sense of whitespace, or it gives no tokens at all. */
  lemma ValueTokensRoundTrip(lead: string, tokens: seq<string>, gaps: seq<string>, trail: string)
    requires Separated(tokens, gaps) && AllSpaces(lead) && AllSpaces(trail)
    requires !IsBlank(Some(lead + (JoinWith(tokens, gaps) + trail)))
    ensures ValueTokens(Some(lead + (JoinWith(tokens, gaps) + trail)))
         == (if lead == "" then [] else [""]) + tokens
  {
    SplitOnSpacesRoundTrip(lead, tokens, gaps, trail);
  }

  /** A word made only of Java whitespace outside `\s` still comes back as a token when the
      value holds other characters: the ideographic space U+3000 followed by " clean" gives
      U+3000 and "clean". */
  lemma ValueTokensKeepsJavaWhitespaceWord(value: string)
    requires value == "\U{3000} clean"
    ensures ValueTokens(Some(value)) == ["\U{3000}", "clean"]
  {
    var tokens, gaps := ["\U{3000}", "clean"], [" "];
    assert IsWord("\U{3000}") && IsWord("clean") && IsGap(" ");
    assert Separated(tokens, gaps);
    assert value == "" + (JoinWith(tokens, gaps) + "");
    assert !IsWhitespace(value[2]);
    ValueTokensRoundTrip("", tokens, gaps, "");
  }

  /** A value made only of characters that Java counts as whitespace but `\s` does not
      (here the file separator U+001C) is blank, so it gives no tokens, although
      `split("\\s+")` alone would keep it whole. */
  lemma ValueTokensBlankWithoutSpace(value: string)
    requires value == "\U{1C}"
    ensures ValueTokens(Some(value)) == [] && SplitOnSpaces(value) == [value]
  {
    assert !IsSpace(value[0]);
    assert !HasSpace(value);
  }

  /** A free-form option string: "-x test" gives "-x" and "test". */
  lemma ValueTokensOptions(value: string)
    requires value == "-x test"
    ensures ValueTokens(Some(value)) == ["-x", "test"]
  {
    var tokens, gaps := ["-x", "test"], [" "];
    assert IsWord("-x") && IsWord("test") && IsGap(" ");
    assert Separated(tokens, gaps);
    assert value == "" + (JoinWith(tokens, gaps) + "");
    assert !IsWhitespace(value[0]);
    ValueTokensRoundTrip("", tokens, gaps, "");
  }
}
