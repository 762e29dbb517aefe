/**
 * React completions for the JavaScript pane (src/lib/reactCompletions.ts):
 * a fixed catalogue of attribute and hook snippets, filtered by the word
 * before the cursor with a case-insensitive prefix test.
 *
 * CodeMirror's `matchBefore(/\w+/)` is not modelled; its result, the word
 * before the cursor or nothing, is the input `word`.
 */
module Completions {
  import opened Wrappers
  import opened Strings

  datatype Kind = Property | Function

  /** A completion option: its label (`name`), the text it inserts when that differs, a detail line and a type. */
  datatype Snippet = Snippet(name: string, apply: Option<string>, detail: string, kind: Kind)

  /** `reactAttributeSnippets`: HTML attribute names offered with their React spelling. */
  const AttributeSnippets: seq<Snippet> := [
      Snippet("class", Some("className"), "React className attribute", Property),
      Snippet("for", Some("htmlFor"), "React htmlFor attribute", Property),
      Snippet("onclick", Some("onClick"), "React onClick event handler", Property),
      Snippet("onchange", Some("onChange"), "React onChange event handler", Property),
      Snippet("onfocus", Some("onFocus"), "React onFocus event handler", Property),
      Snippet("onblur", Some("onBlur"), "React onBlur event handler", Property),
      Snippet("onsubmit", Some("onSubmit"), "React onSubmit event handler", Property),
      Snippet("onkeydown", Some("onKeyDown"), "React onKeyDown event handler", Property),
      Snippet("onkeyup", Some("onKeyUp"), "React onKeyUp event handler", Property),
      Snippet("onmouseenter", Some("onMouseEnter"), "React onMouseEnter event handler", Property),
      Snippet("onmouseleave", Some("onMouseLeave"), "React onMouseLeave event handler", Property),
      Snippet("tabindex", Some("tabIndex"), "React tabIndex attribute", Property),
      Snippet("readonly", Some("readOnly"), "React readOnly attribute", Property),
      Snippet("maxlength", Some("maxLength"), "React maxLength attribute", Property),
      Snippet("minlength", Some("minLength"), "React minLength attribute", Property),
      Snippet("contenteditable", Some("contentEditable"), "React contentEditable attribute", Property),
      Snippet("crossorigin", Some("crossOrigin"), "React crossOrigin attribute", Property),
      Snippet("datetime", Some("dateTime"), "React dateTime attribute", Property),
      Snippet("enctype", Some("encType"), "React encType attribute", Property),
      Snippet("formaction", Some("formAction"), "React formAction attribute", Property),
      Snippet("formenctype", Some("formEncType"), "React formEncType attribute", Property),
      Snippet("formmethod", Some("formMethod"), "React formMethod attribute", Property),
      Snippet("formnovalidate", Some("formNoValidate"), "React formNoValidate attribute", Property),
      Snippet("formtarget", Some("formTarget"), "React formTarget attribute", Property),
      Snippet("frameborder", Some("frameBorder"), "React frameBorder attribute", Property),
      Snippet("marginheight", Some("marginHeight"), "React marginHeight attribute", Property),
      Snippet("marginwidth", Some("marginWidth"), "React marginWidth attribute", Property),
      Snippet("novalidate", Some("noValidate"), "React noValidate attribute", Property),
      Snippet("rowspan", Some("rowSpan"), "React rowSpan attribute", Property),
      Snippet("colspan", Some("colSpan"), "React colSpan attribute", Property),
      Snippet("usemap", Some("useMap"), "React useMap attribute", Property),
      Snippet("autocomplete", Some("autoComplete"), "React autoComplete attribute", Property),
      Snippet("autofocus", Some("autoFocus"), "React autoFocus attribute", Property),
      Snippet("autoplay", Some("autoPlay"), "React autoPlay attribute", Property)
  ]

  /** `reactHookSnippets`. */
  const HookSnippets: seq<Snippet> := [
      Snippet("useState", None, "React useState hook", Function),
      Snippet("useEffect", None, "React useEffect hook", Function),
      Snippet("useContext", None, "React useContext hook", Function),
      Snippet("useReducer", None, "React useReducer hook", Function),
      Snippet("useCallback", None, "React useCallback hook", Function),
      Snippet("useMemo", None, "React useMemo hook", Function),
      Snippet("useRef", None, "React useRef hook", Function),
      Snippet("useLayoutEffect", None, "React useLayoutEffect hook", Function)
  ]

  /** `reactSnippets`: the attributes, then the hooks. */
  const Catalogue: seq<Snippet> := AttributeSnippets + HookSnippets

  /** The word before the cursor, from `from` to `to`. */
  datatype Word = Word(from: nat, to: nat, text: string)

  datatype CompletionResult = CompletionResult(from: nat, options: seq<Snippet>)

  /** The snippet's label, lower-cased, starts with the lower-cased word. */
  predicate Offers(s: Snippet, text: string)
  {
    Lower(text) <= Lower(s.name)
  }

  /** `snippets.filter(...)` with the prefix test. */
  function Matching(ss: seq<Snippet>, text: string): seq<Snippet>
  {
    if ss == [] then []
    else (if Offers(ss[0], text) then [ss[0]] else []) + Matching(ss[1..], text)
  }

  /** `reactCompletions` over the snippets `ss`: `None` stands for a `null` result. */
  function CompleteIn(ss: seq<Snippet>, word: Option<Word>, explicit: bool): Option<CompletionResult>
  {
    if word.None? || (word.value.from == word.value.to && !explicit) then None
    else
      var options := Matching(ss, word.value.text);
      if |options| == 0 then None
      else Some(CompletionResult(word.value.from, options))
  }

  /** `reactCompletions`, over `reactSnippets`. */
  function Complete(word: Option<Word>, explicit: bool): Option<CompletionResult>
  {
    CompleteIn(Catalogue, word, explicit)
  }

  // ---------------------------------------------------------------------
  // Properties of the filter

  /** A snippet is kept exactly when it is offered. */
  lemma {:induction false} MatchingKeepsOffered(ss: seq<Snippet>, text: string)
    ensures forall x :: x in Matching(ss, text) <==> x in ss && Offers(x, text)
  {
    if ss != [] {
      MatchingKeepsOffered(ss[1..], text);
      assert ss == [ss[0]] + ss[1..];
    }
  }

  /** Filtering keeps the order: the result over a concatenation is the concatenation of the results. */
  lemma {:induction false} MatchingAppend(a: seq<Snippet>, b: seq<Snippet>, text: string)
    ensures Matching(a + b, text) == Matching(a, text) + Matching(b, text)
  {
    if a == [] {
      assert a + b == b;
    } else {
      assert (a + b)[0] == a[0] && (a + b)[1..] == a[1..] + b;
      MatchingAppend(a[1..], b, text);
    }
  }

  /** The empty word matches every snippet. */
  lemma {:induction false} EmptyWordMatchesAll(ss: seq<Snippet>)
    ensures Matching(ss, "") == ss
  {
    if ss != [] {
      EmptyWordMatchesAll(ss[1..]);
    }
  }

  /** Upper- and lower-case letters of the word are alike. */
  lemma CaseDoesNotMatter(ss: seq<Snippet>, text: string, text': string)
    requires Lower(text) == Lower(text')
    ensures Matching(ss, text) == Matching(ss, text')
  {
  }

  // ---------------------------------------------------------------------
  // When there is a result, and what it holds

  /** Without a word there is no result. */
  lemma NoWordNoResult(explicit: bool)
    ensures Complete(None, explicit) == None
  {
  }

  /** An empty word gives a result only on an explicit request. */
  lemma EmptyWordNeedsExplicit(w: Word)
    requires w.from == w.to
    ensures Complete(Some(w), false) == None
  {
  }

  /**
   * A result exists exactly when there is a word, it is non-empty or the
   * request is explicit, and some snippet is offered; the list is never
   * empty, starts at the word, holds exactly the offered snippets, and lists
   * the attributes before the hooks, each group in catalogue order.
   */
  lemma CompleteResult(word: Option<Word>, explicit: bool)
    ensures Complete(word, explicit).Some? <==>
      && word.Some?
      && (word.value.from != word.value.to || explicit)
      && exists x :: x in Catalogue && Offers(x, word.value.text)
    ensures Complete(word, explicit).Some? ==>
      var r := Complete(word, explicit).value;
      && r.from == word.value.from
      && |r.options| > 0
      && (forall x :: x in r.options <==> x in Catalogue && Offers(x, word.value.text))
      && r.options == Matching(AttributeSnippets, word.value.text) + Matching(HookSnippets, word.value.text)
  {
    CompleteInResult(AttributeSnippets, HookSnippets, word, explicit);
  }

  lemma CompleteInResult(a: seq<Snippet>, b: seq<Snippet>, word: Option<Word>, explicit: bool)
    ensures CompleteIn(a + b, word, explicit).Some? <==>
      && word.Some?
      && (word.value.from != word.value.to || explicit)
      && exists x :: x in a + b && Offers(x, word.value.text)
    ensures CompleteIn(a + b, word, explicit).Some? ==>
      var r := CompleteIn(a + b, word, explicit).value;
      && r.from == word.value.from
      && |r.options| > 0
      && (forall x :: x in r.options <==> x in a + b && Offers(x, word.value.text))
      && r.options == Matching(a, word.value.text) + Matching(b, word.value.text)
  {
    if word.Some? {
      var text := word.value.text;
      MatchingKeepsOffered(a + b, text);
      MatchingAppend(a, b, text);
      MatchingNonEmpty(a + b, text);
    }
  }

  /** Something is kept exactly when some snippet is offered. */
  lemma MatchingNonEmpty(ss: seq<Snippet>, text: string)
    ensures |Matching(ss, text)| > 0 <==> exists x :: x in ss && Offers(x, text)
  {
    MatchingKeepsOffered(ss, text);
    if exists x :: x in ss && Offers(x, text) {
      var x :| x in ss && Offers(x, text);
      assert x in Matching(ss, text);
    }
  }
}
