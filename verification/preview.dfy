/**
 * The collaborative playground's preview frame
 * (components/RightPane/IFrame.tsx): the CSS in a style element, the HTML,
 * then the JavaScript in a script element, inserted verbatim.
 */
module Preview {

  /** The frame's `srcDoc`. */
  function SrcDoc(html: string, css: string, js: string): string
  {
    "<style>" + css + "</style>" + html + "<script>" + js + "</script>"
  }

  /**
   * The document starts with the style block, the HTML follows it directly,
   * the script block ends it, and nothing is escaped: the length is the
   * codes' lengths plus the 32 characters of the four tags.
   */
  lemma SrcDocLayout(html: string, css: string, js: string)
    ensures var d := SrcDoc(html, css, js);
      var style := "<style>" + css + "</style>";
      var script := "<script>" + js + "</script>";
      && |d| == |css| + |html| + |js| + 32
      && d[..|style|] == style
      && d[|style|..|style| + |html|] == html
      && d[|d| - |script|..] == script
  {
    var d := SrcDoc(html, css, js);
    var style := "<style>" + css + "</style>";
    var script := "<script>" + js + "</script>";
    assert d == style + html + script;
  }

  /** Different codes give different documents: the frame shows exactly what was typed. */
  lemma SrcDocInjective(html: string, css: string, js: string, html': string, css': string, js': string)
    requires |css| == |css'| && |js| == |js'|
    requires SrcDoc(html, css, js) == SrcDoc(html', css', js')
    ensures html == html' && css == css' && js == js'
  {
    SrcDocLayout(html, css, js);
    SrcDocLayout(html', css', js');
    var d := SrcDoc(html, css, js);
    assert css == d[7..7 + |css|];
    assert css' == d[7..7 + |css'|];
    assert js == d[|d| - 9 - |js|..|d| - 9];
    assert js' == d[|d| - 9 - |js'|..|d| - 9];
  }
}
