/**
 * The keyboard-input helpers of the Windows automation service: the key-name table that turns
 * a key name into SendKeys syntax, and the escaping chain applied to plain text before it is
 * typed with SendKeys.
 */
module SendKeys {
  import opened Text

  /** Named keys, looked up by their upper-cased name. */
  const KeyTable: map<string, string> := map[
    "F1" := "{F1}", "F2" := "{F2}", "F3" := "{F3}", "F4" := "{F4}", "F5" := "{F5}", "F6" := "{F6}",
    "F7" := "{F7}", "F8" := "{F8}", "F9" := "{F9}", "F10" := "{F10}", "F11" := "{F11}", "F12" := "{F12}",
    "ENTER" := "{ENTER}", "RETURN" := "{ENTER}", "TAB" := "{TAB}", "SPACE" := " ",
    "ESC" := "{ESC}", "ESCAPE" := "{ESC}", "BACKSPACE" := "{BACKSPACE}", "DELETE" := "{DELETE}",
    "HOME" := "{HOME}", "END" := "{END}", "PAGEUP" := "{PGUP}", "PAGEDOWN" := "{PGDN}",
    "UP" := "{UP}", "DOWN" := "{DOWN}", "LEFT" := "{LEFT}", "RIGHT" := "{RIGHT}", "INSERT" := "{INSERT}",
    "CTRL+A" := "^a", "CTRL+C" := "^c", "CTRL+V" := "^v", "CTRL+X" := "^x", "CTRL+Z" := "^z",
    "CTRL+Y" := "^y", "CTRL+S" := "^s", "CTRL+O" := "^o", "CTRL+N" := "^n", "ALT+F4" := "%{F4}"
  ]

  /**
   * SendKeys code for a key name: a named key (matched on its upper-cased name) through the
   * table, any other one-character key unchanged, anything else wrapped in braces.
   */
  function ConvertStringToKey(key: string): (code: string)
    ensures ToUpper(key) in KeyTable ==> code == KeyTable[ToUpper(key)]
    ensures ToUpper(key) !in KeyTable && |key| == 1 ==> code == key
    ensures ToUpper(key) !in KeyTable && |key| != 1 ==> code == "{" + key + "}"
  {
    var upper := ToUpper(key);
    if upper in KeyTable then KeyTable[upper] else if |key| == 1 then key else "{" + key + "}"
  }

  /** Named keys are recognised whatever their letter case. */
  lemma NamedKeyIgnoresCase(a: string, b: string)
    requires ToUpper(a) == ToUpper(b)
    requires ToUpper(a) in KeyTable
    ensures ConvertStringToKey(a) == ConvertStringToKey(b)
  {
  }

  /** Every key name in the table is longer than one character. */
  lemma KeyNamesAreWords()
    ensures forall k :: k in KeyTable ==> |k| >= 2
  {
  }

  /** An unknown one-character key keeps its own letter case: only table entries are case-insensitive. */
  lemma UnknownKeyKeepsCase()
    ensures ConvertStringToKey("a") == "a" && ConvertStringToKey("A") == "A"
  {
    KeyNamesAreWords();
    assert ToUpper("a") == "A" && ToUpper("A") == "A";
  }

  /** A longer unknown key name is wrapped in braces, in its own letter case. */
  lemma UnknownNameBraced()
    ensures ConvertStringToKey("f13") == "{f13}"
  {
    assert ToUpper("f13") == "F13";
    assert "F13" !in KeyTable;
  }

  lemma NamedKeyExamples()
    ensures ConvertStringToKey("enter") == "{ENTER}"
    ensures ConvertStringToKey("Return") == "{ENTER}"
  {
    assert ToUpper("enter") == "ENTER";
    assert ToUpper("Return") == "RETURN";
  }

  lemma NamedKeyExamplesMore()
    ensures ConvertStringToKey("space") == " "
    ensures ConvertStringToKey("ctrl+s") == "^s"
  {
    assert ToUpper("space") == "SPACE";
    assert ToUpper("ctrl+s") == "CTRL+S";
  }

  // ---------------------------------------------------------------------------------------
  // Escaping of plain text

  /** The ten replacements of SendText, in the order the source applies them. */
  function EscapeText(text: string): (r: string)
  {
    var t1 := ReplaceChar(text, '+', "{+}");
    var t2 := ReplaceChar(t1, '^', "{^}");
    var t3 := ReplaceChar(t2, '%', "{%}");
    var t4 := ReplaceChar(t3, '~', "{~}");
    var t5 := ReplaceChar(t4, '(', "{(}");
    var t6 := ReplaceChar(t5, ')', "{)}");
    var t7 := ReplaceChar(t6, '[', "{[}");
    var t8 := ReplaceChar(t7, ']', "{]}");
    var t9 := ReplaceChar(t8, '{', "{{}");
    ReplaceChar(t9, '}', "{}}")
  }

  /** What the chain of replacements does to one character, worked out once. */
  function EscapedChar(c: char): (r: string)
  {
    if c in "+^%~()[]" then "{{{}}" + [c] + "{}}"
    else if c == '{' then "{{{}}"
    else if c == '}' then "{}}"
    else [c]
  }

  /** The per-character reading of the chain: each character is rewritten on its own. */
  function EscapeEach(text: string): (r: string)
    decreases |text|
  {
    if |text| == 0 then [] else EscapedChar(text[0]) + EscapeEach(text[1..])
  }

  /** A character the chain does not mention comes through unchanged. */
  lemma EscapePlainChar(c: char)
    requires c !in "+^%~()[]{}"
    ensures EscapeText([c]) == [c]
  {
    forall x: char, r: string | x != c ensures ReplaceChar([c], x, r) == [c] {
      assert [c][1..] == [];
    }
  }

  lemma ReplaceCharSingle(c: char, x: char, r: string)
    ensures ReplaceChar([c], x, r) == if c == x then r else [c]
  {
    assert [c][1..] == [];
  }

  /** One of the eight bracket-wrapping rules applied to `[c]` or to `{c}`. */
  lemma WrapStage(c: char, x: char, t: string)
    requires x != '{' && x != '}' && c != '{' && c != '}'
    requires t == [c] || (t == ['{', c, '}'] && x != c)
    ensures ReplaceChar(t, x, ['{', x, '}']) == if t == ['{', c, '}'] || c == x then ['{', c, '}'] else [c]
  {
    if t == [c] {
      ReplaceCharSingle(c, x, ['{', x, '}']);
    } else {
      ReplaceCharAbsent(t, x, ['{', x, '}']);
    }
  }

  /** The first eight rules turn a character they mention into `{c}`. */
  lemma WrapStages(c: char)
    requires c in "+^%~()[]"
    ensures ReplaceChar(ReplaceChar(ReplaceChar(ReplaceChar(ReplaceChar(ReplaceChar(ReplaceChar(ReplaceChar(
              [c], '+', "{+}"), '^', "{^}"), '%', "{%}"), '~', "{~}"), '(', "{(}"), ')', "{)}"), '[', "{[}"), ']', "{]}") == ['{', c, '}']
  {
    var w := ['{', c, '}'];
    var t1 := ReplaceChar([c], '+', "{+}");
    WrapStage(c, '+', [c]);
    var t2 := ReplaceChar(t1, '^', "{^}");
    WrapStage(c, '^', t1);
    var t3 := ReplaceChar(t2, '%', "{%}");
    WrapStage(c, '%', t2);
    var t4 := ReplaceChar(t3, '~', "{~}");
    WrapStage(c, '~', t3);
    var t5 := ReplaceChar(t4, '(', "{(}");
    WrapStage(c, '(', t4);
    var t6 := ReplaceChar(t5, ')', "{)}");
    WrapStage(c, ')', t5);
    var t7 := ReplaceChar(t6, '[', "{[}");
    WrapStage(c, '[', t6);
    WrapStage(c, ']', t7);
  }

  /** The two brace rules applied to `{c}`: both braces are escaped again. */
  lemma BraceStages(c: char)
    requires c != '{' && c != '}'
    ensures ReplaceChar(ReplaceChar(['{', c, '}'], '{', "{{}"), '}', "{}}") == "{{{}}" + [c] + "{}}"
  {
    assert ['{', c, '}'] == ['{'] + [c, '}'] && [c, '}'] == [c] + ['}'];
    ReplaceCharAppend(['{'], [c, '}'], '{', "{{}");
    ReplaceCharAppend([c], ['}'], '{', "{{}");
    ReplaceCharSingle('{', '{', "{{}");
    ReplaceCharSingle(c, '{', "{{}");
    ReplaceCharSingle('}', '{', "{{}");
    var t9 := ReplaceChar(['{', c, '}'], '{', "{{}");
    assert t9 == "{{}" + [c] + "}";
    ReplaceCharAppend("{{}", [c] + "}", '}', "{}}");
    ReplaceCharAppend([c], "}", '}', "{}}");
    ReplaceCharSingle(c, '}', "{}}");
    assert ReplaceChar("{{}", '}', "{}}") == "{{{}}";
    assert ReplaceChar("}", '}', "{}}") == "{}}";
  }

  /** A character that one of the first eight rules wraps ends up as `{{{}}` c `{}}`. */
  lemma EscapeWrappedChar(c: char)
    requires c in "+^%~()[]"
    ensures EscapeText([c]) == EscapedChar(c)
  {
    WrapStages(c);
    BraceStages(c);
  }

  lemma EscapeOpenBrace()
    ensures EscapeText("{") == EscapedChar('{')
  {
    EscapePlainStages('{');
    assert ReplaceChar("{", '{', "{{}") == "{{}";
    assert ReplaceChar("{{}", '}', "{}}") == "{{{}}";
  }

  lemma EscapeCloseBrace()
    ensures EscapeText("}") == EscapedChar('}')
  {
    EscapePlainStages('}');
    assert ReplaceChar("}", '{', "{{}") == "}";
    assert ReplaceChar("}", '}', "{}}") == "{}}";
  }

  /** The first eight rules leave a brace alone. */
  lemma EscapePlainStages(c: char)
    requires c !in "+^%~()[]"
    ensures ReplaceChar(ReplaceChar(ReplaceChar(ReplaceChar(ReplaceChar(ReplaceChar(ReplaceChar(ReplaceChar(
              [c], '+', "{+}"), '^', "{^}"), '%', "{%}"), '~', "{~}"), '(', "{(}"), ')', "{)}"), '[', "{[}"), ']', "{]}") == [c]
  {
    forall x: char, r: string | x != c ensures ReplaceChar([c], x, r) == [c] {
      ReplaceCharSingle(c, x, r);
    }
  }

  lemma EscapeTextOneChar(c: char)
    ensures EscapeText([c]) == EscapedChar(c)
  {
    if c in "+^%~()[]" {
      EscapeWrappedChar(c);
    } else if c == '{' {
      EscapeOpenBrace();
    } else if c == '}' {
      EscapeCloseBrace();
    } else {
      EscapePlainChar(c);
    }
  }

  lemma {:induction false} EscapeTextAppend(s: string, t: string)
    ensures EscapeText(s + t) == EscapeText(s) + EscapeText(t)
  {
    var s1, s2 := s, t;
    ReplaceCharAppend(s1, s2, '+', "{+}");
    s1, s2 := ReplaceChar(s1, '+', "{+}"), ReplaceChar(s2, '+', "{+}");
    ReplaceCharAppend(s1, s2, '^', "{^}");
    s1, s2 := ReplaceChar(s1, '^', "{^}"), ReplaceChar(s2, '^', "{^}");
    ReplaceCharAppend(s1, s2, '%', "{%}");
    s1, s2 := ReplaceChar(s1, '%', "{%}"), ReplaceChar(s2, '%', "{%}");
    ReplaceCharAppend(s1, s2, '~', "{~}");
    s1, s2 := ReplaceChar(s1, '~', "{~}"), ReplaceChar(s2, '~', "{~}");
    ReplaceCharAppend(s1, s2, '(', "{(}");
    s1, s2 := ReplaceChar(s1, '(', "{(}"), ReplaceChar(s2, '(', "{(}");
    ReplaceCharAppend(s1, s2, ')', "{)}");
    s1, s2 := ReplaceChar(s1, ')', "{)}"), ReplaceChar(s2, ')', "{)}");
    ReplaceCharAppend(s1, s2, '[', "{[}");
    s1, s2 := ReplaceChar(s1, '[', "{[}"), ReplaceChar(s2, '[', "{[}");
    ReplaceCharAppend(s1, s2, ']', "{]}");
    s1, s2 := ReplaceChar(s1, ']', "{]}"), ReplaceChar(s2, ']', "{]}");
    ReplaceCharAppend(s1, s2, '{', "{{}");
    s1, s2 := ReplaceChar(s1, '{', "{{}"), ReplaceChar(s2, '{', "{{}");
    ReplaceCharAppend(s1, s2, '}', "{}}");
  }

  /**
   * The ten sequential replacements act character by character: later rules also rewrite the
   * braces that earlier rules inserted, which is where the doubled braces of EscapedChar come from.
   */
  lemma {:induction false} EscapeTextIsPerCharacter(text: string)
    ensures EscapeText(text) == EscapeEach(text)
    decreases |text|
  {
    if |text| > 0 {
      assert text == [text[0]] + text[1..];
      EscapeTextAppend([text[0]], text[1..]);
      EscapeTextOneChar(text[0]);
      EscapeTextIsPerCharacter(text[1..]);
    }
  }
}

module SendKeysSyntax {
  import opened Wrappers
  import opened Text
  import opened SendKeys

  /** Characters SendKeys gives a meaning of their own (modifiers, ENTER, grouping, key names). */
  predicate IsSpecial(c: char) {
    c in "+^%~(){}[]"
  }

  /**
   * The literal text a SendKeys string types, when it types only literal characters: a special
   * character counts as literal only inside a one-character brace group (`{+}`, `{{}`, `{}}`).
   * None when some special character stands outside such a group.
   */
  function TypedText(keys: string): (r: Option<string>)
    decreases |keys|
  {
    if |keys| == 0 then Some([])
    else if keys[0] == '{' then
      if |keys| >= 3 && keys[2] == '}' then
        match TypedText(keys[3..])
        case Some(rest) => Some([keys[1]] + rest)
        case None => None
      else None
    else if IsSpecial(keys[0]) then None
    else
      match TypedText(keys[1..])
      case Some(rest) => Some([keys[0]] + rest)
      case None => None
  }

  /** The escaping SendText evidently intends: every special character wrapped in braces once. */
  function EscapeTextIntended(text: string): (r: string)
    decreases |text|
  {
    if |text| == 0 then []
    else (if IsSpecial(text[0]) then ['{', text[0], '}'] else [text[0]]) + EscapeTextIntended(text[1..])
  }

  /** With single wrapping, SendKeys types exactly the original text. */
  lemma {:induction false} EscapeTextIntendedTypesText(text: string)
    ensures TypedText(EscapeTextIntended(text)) == Some(text)
    decreases |text|
  {
    if |text| > 0 {
      var head := if IsSpecial(text[0]) then ['{', text[0], '}'] else [text[0]];
      var e := EscapeTextIntended(text);
      assert e == head + EscapeTextIntended(text[1..]);
      EscapeTextIntendedTypesText(text[1..]);
      if IsSpecial(text[0]) {
        assert e[3..] == EscapeTextIntended(text[1..]);
      } else {
        assert e[1..] == EscapeTextIntended(text[1..]);
      }
      assert text == [text[0]] + text[1..];
    }
  }

  /**
   * The chain as written: a single `+` becomes `{{{}}+{}}`, whose `+` stands outside any brace
   * group, so what SendKeys types for it is not a literal plus sign.
   */
  lemma EscapeTextPlusNotLiteral()
    ensures EscapeText("+") == "{{{}}+{}}"
    ensures TypedText(EscapeText("+")) == None
  {
    EscapeTextPlus();
    DoubleBracesUntyped();
  }

  lemma EscapeTextPlus()
    ensures EscapeText("+") == "{{{}}+{}}"
  {
    EscapeWrappedChar('+');
    assert "+" == ['+'];
    assert EscapedChar('+') == "{{{}}+{}}";
  }

  /** The two escapes the chain produces for `+` and `{` are not typed as literal text. */
  lemma DoubleBracesUntyped()
    ensures TypedText("{{{}}+{}}") == None && TypedText("{{{}}") == None
  {
    TypedTextDoubleBrace("{{{}}+{}}");
    TypedTextDoubleBrace("{{{}}");
  }

  /** A string that opens with `{{{` is not a brace group. */
  lemma TypedTextDoubleBrace(keys: string)
    requires |keys| >= 3 && keys[..3] == "{{{"
    ensures TypedText(keys) == None
  {
    assert keys[0] == keys[..3][0] && keys[2] == keys[..3][2];
  }

  /** The intended escaping of the same text is typed as a plus sign. */
  lemma EscapeTextIntendedPlus()
    ensures EscapeTextIntended("+") == "{+}"
    ensures TypedText(EscapeTextIntended("+")) == Some("+")
  {
    EscapeTextIntendedTypesText("+");
  }

  /** Even a lone opening brace is mangled: `{` becomes `{{{}}`, which is not a brace group. */
  lemma EscapeTextOpenBraceNotLiteral()
    ensures EscapeText("{") == "{{{}}"
    ensures TypedText(EscapeText("{")) == None
  {
    EscapeOpenBrace();
    DoubleBracesUntyped();
  }

  /** Text without special characters is typed as it is under the chain as written. */
  lemma {:induction false} EscapeTextPlainTypesText(text: string)
    requires forall i :: 0 <= i < |text| ==> !IsSpecial(text[i])
    ensures TypedText(EscapeText(text)) == Some(text)
    decreases |text|
  {
    EscapeTextIsPerCharacter(text);
    PlainTypedText(text);
  }

  lemma {:induction false} PlainTypedText(text: string)
    requires forall i :: 0 <= i < |text| ==> !IsSpecial(text[i])
    ensures EscapeEach(text) == text
    ensures TypedText(text) == Some(text)
    decreases |text|
  {
    if |text| > 0 {
      PlainTypedText(text[1..]);
      assert text == [text[0]] + text[1..];
    }
  }
}
