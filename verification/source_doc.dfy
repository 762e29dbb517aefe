/**
 * The document shown in the classic playground's preview frame
 * (`generateSourceDoc`, written identically in src/App.tsx and
 * app/page.tsx): the saved CSS inside a `<style>` element in the head, the
 * Tailwind CDN script after it when enabled, then the saved HTML in the
 * body followed by the saved JavaScript in a script element.  The codes are
 * inserted verbatim.
 */
module SourceDoc {
  import opened Strings

  const Preamble: string :=
    "\n"
    + "    <!DOCTYPE html>\n"
    + "    <html lang=\"en\">\n"
    + "    <head>\n"
    + "      <meta charset=\"UTF-8\" />\n"
    + "      <meta name=\"viewport\" content=\"width=device-width, initial-scale=1.0\" />\n"
    + "      <title>Document</title>\n"
    + "      "
  const StyleOpen: string := "<style>\n        "
  const StyleClose: string := "\n      </style>"
  const HeadGap: string := "\n      "
  const TailwindTag: string := "<script src=\"https://cdn.tailwindcss.com\"></script>"
  const HeadClose: string := "\n    </head>\n    "
  const BodyOpen: string := "<body>\n      "
  const ScriptOpen: string := "\n      <script type=\"text/javascript\">\n        "
  const ScriptClose: string := "\n      </script>"
  const Ending: string := "\n    </body>\n    </html>\n  "

  function TailwindPart(isTailwindEnabled: bool): string
  {
    if isTailwindEnabled then TailwindTag else ""
  }

  /** Up to the place of the optional Tailwind script: the head with the style element. */
  function Head(css: string): string
  {
    Preamble + StyleOpen + css + StyleClose + HeadGap
  }

  /** From the end of the head: the body with the HTML and the script element. */
  function Body(html: string, js: string): string
  {
    HeadClose + BodyOpen + html + ScriptOpen + js + ScriptClose + Ending
  }

  /** `generateSourceDoc(html, css, js, isTailwindEnabled)`. */
  function GenerateSourceDoc(html: string, css: string, js: string, isTailwindEnabled: bool): string
  {
    Head(css) + TailwindPart(isTailwindEnabled) + Body(html, js)
  }

  /**
   * The CSS sits inside the style element, then comes the body with the
   * HTML, then the JavaScript inside the script element that closes the
   * body, in that order.
   */
  lemma CodesInOrder(html: string, css: string, js: string, isTailwindEnabled: bool)
    ensures exists pre, mid, post ::
      GenerateSourceDoc(html, css, js, isTailwindEnabled)
      == pre + StyleOpen + css + StyleClose + mid + BodyOpen + html + ScriptOpen + js + ScriptClose + post
  {
    Regroup(Preamble, StyleOpen, css, StyleClose, HeadGap, TailwindPart(isTailwindEnabled), HeadClose,
            BodyOpen, html, ScriptOpen, js, ScriptClose, Ending);
  }

  lemma Regroup(a: string, b: string, c: string, d: string, e: string, f: string, g: string,
                h: string, i: string, j: string, k: string, l: string, m: string)
    ensures (a + b + c + d + e) + f + (g + h + i + j + k + l + m)
         == a + b + c + d + (e + f + g) + h + i + j + k + l + m
  {
  }

  /**
   * The Tailwind script is present exactly when enabled: the document with
   * it is the document without it with the tag inserted in the head, right
   * after the style element and before the head closes.
   */
  lemma TailwindTagIffEnabled(html: string, css: string, js: string)
    ensures exists before, after ::
      && GenerateSourceDoc(html, css, js, true) == before + TailwindTag + after
      && GenerateSourceDoc(html, css, js, false) == before + after
      && EndsWith(before, StyleClose + HeadGap)
      && |HeadClose| <= |after| && after[..|HeadClose|] == HeadClose
  {
    var before := Head(css);
    var after := Body(html, js);
    assert before + "" + after == before + after;
    Suffix(Preamble + StyleOpen + css, StyleClose, HeadGap);
    Prefix(HeadClose, BodyOpen, html, ScriptOpen, js, ScriptClose, Ending);
  }

  lemma Suffix(x: string, y: string, z: string)
    ensures EndsWith(x + y + z, y + z)
  {
    assert (x + y + z)[|x + y + z| - |y + z|..] == y + z;
  }

  lemma Prefix(g: string, h: string, i: string, j: string, k: string, l: string, m: string)
    ensures (g + h + i + j + k + l + m)[..|g|] == g
  {
  }

  /** Nothing is escaped or dropped: the codes add exactly their own length. */
  lemma DocLength(html: string, css: string, js: string, isTailwindEnabled: bool)
    ensures |GenerateSourceDoc(html, css, js, isTailwindEnabled)|
      == |html| + |css| + |js| + |GenerateSourceDoc("", "", "", isTailwindEnabled)|
  {
  }
}
