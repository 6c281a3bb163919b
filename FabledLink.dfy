/**
 * The cells of a table row that come from the file and line of an error:
 * the line text, the displayed path, and the editor link built by
 * `str_replace` over a fixed template.
 */
module FabledLink {
  import opened Wrappers
  import opened PhpStrings

  /** The editor-link template exactly as written, doubled `%` included. */
  const UrlTemplate: string := "vscode://file/%%file%%:%%line%%"

  /** `(string) $line`: the decimal line number, or the empty string for null. */
  function LineText(line: Option<int>): string {
    match line
    case Some(n) => IntToString(n)
    case None => ""
  }

  /** `strstr($file, "app/")` shown as text: from the first `app/` on, or empty. */
  function DisplayPath(file: string): string {
    Strstr(file, "app/").GetOr("")
  }

  /**
   * The displayed path is the part of the file path from its first `app/`
   * on, and it is empty exactly when the path holds no `app/`.
   */
  lemma DisplayPathFindsApp(file: string)
    ensures var d := DisplayPath(file);
      && (d != [] ==>
           IsSuffix(d, file) && StartsWith(d, "app/")
           && forall k :: 0 <= k < |file| - |d| ==> !StartsWith(file[k..], "app/"))
      && (d == [] <==> forall k :: 0 <= k <= |file| ==> !StartsWith(file[k..], "app/"))
  {
  }

  /** The `str_replace` call that fills the template. */
  function DeepLink(file: string, relFile: string, lineText: string): string {
    StrReplace([("%file%", file), ("%relFile%", relFile), ("%line%", lineText)], UrlTemplate)
  }

  /**
   * The values a row's link is made from: the error's path, the displayed
   * path and the line text. `Url` renders them through the template.
   */
  datatype LinkArgs = LinkArgs(file: string, relFile: string, lineText: string)

  function Url(a: LinkArgs): string {
    DeepLink(a.file, a.relFile, a.lineText)
  }

  const LinkHead: string := "vscode://file/"
  const LinkTail: string := ":%%line%%"

  // The template is taken apart one step at a time: each step is its own lemma.

  lemma FileStepHead(file: string)
    ensures ReplaceAll(UrlTemplate, "%file%", file)
         == LinkHead + ReplaceAll("%" + ("%file%" + ("%" + LinkTail)), "%file%", file)
  {
    var rest := "%" + ("%file%" + ("%" + LinkTail));
    assert UrlTemplate == LinkHead + rest;
    ReplaceAllSkips(LinkHead, rest, "%file%", file);
  }

  lemma FileStepStray(file: string)
    ensures ReplaceAll("%" + ("%file%" + ("%" + LinkTail)), "%file%", file)
         == "%" + ReplaceAll("%file%" + ("%" + LinkTail), "%file%", file)
  {
    var rest := "%" + ("%file%" + ("%" + LinkTail));
    assert rest[..6] != "%file%" by { assert rest[1] == '%'; }
    assert rest[1..] == "%file%" + ("%" + LinkTail);
  }

  lemma FileStepMatch(file: string)
    ensures ReplaceAll("%file%" + ("%" + LinkTail), "%file%", file) == file + ("%" + LinkTail)
  {
    assert ("%file%" + ("%" + LinkTail))[6..] == "%" + LinkTail;
    ReplaceAllAbsent("%" + LinkTail, "%file%", file, 'f');
  }

  /** After the `%file%` pass: the path sits between two `%`. */
  lemma FilePass(file: string)
    ensures ReplaceAll(UrlTemplate, "%file%", file) == LinkHead + ("%" + file + "%" + LinkTail)
  {
    FileStepHead(file);
    FileStepStray(file);
    FileStepMatch(file);
    assert "%" + (file + ("%" + LinkTail)) == "%" + file + "%" + LinkTail;
  }

  lemma RelFileStepTail(relFile: string)
    ensures ReplaceAll("%" + LinkTail, "%relFile%", relFile) == "%" + LinkTail
  {
    ReplaceAllAbsent("%" + LinkTail, "%relFile%", relFile, 'F');
  }

  lemma RelFileStepWord(file: string, relFile: string)
    requires '%' !in file && file != "relFile"
    ensures ReplaceAll("%" + file + "%" + LinkTail, "%relFile%", relFile) == "%" + file + ("%" + LinkTail)
  {
    assert "%relFile%" == "%" + "relFile" + "%";
    DelimitedSkips(file, LinkTail, "relFile", relFile);
    RelFileStepTail(relFile);
  }

  /** The `%relFile%` pass finds nothing, unless the path is the word `relFile` or holds a `%`. */
  lemma RelFilePass(file: string, relFile: string)
    requires '%' !in file && file != "relFile"
    ensures ReplaceAll(LinkHead + ("%" + file + "%" + LinkTail), "%relFile%", relFile)
         == LinkHead + ("%" + file + "%" + LinkTail)
  {
    var x := "%" + file + "%" + LinkTail;
    ReplaceAllSkips(LinkHead, x, "%relFile%", relFile);
    RelFileStepWord(file, relFile);
    assert "%" + file + ("%" + LinkTail) == x;
  }

  lemma LineStepStray(lineText: string)
    ensures ReplaceAll("%" + ("%line%" + "%"), "%line%", lineText) == "%" + lineText + "%"
  {
    var v := "%" + ("%line%" + "%");
    assert v[..6] != "%line%" by { assert v[1] == '%'; }
    assert v[1..] == "%line%" + "%";
    assert ("%line%" + "%")[6..] == "%";
    assert ReplaceAll("%", "%line%", lineText) == "%";
  }

  lemma LineStepTail(lineText: string)
    ensures ReplaceAll("%" + LinkTail, "%line%", lineText) == "%:%" + lineText + "%"
  {
    var v := "%" + ("%line%" + "%");
    var u := ":" + v;
    assert "%" + LinkTail == "%" + u;
    assert ("%" + u)[..6] != "%line%" by { assert ("%" + u)[1] == ':'; }
    assert ("%" + u)[1..] == u;
    ReplaceAllSkips(":", v, "%line%", lineText);
    LineStepStray(lineText);
  }

  lemma LineStepWord(file: string, lineText: string)
    requires '%' !in file && file != "line"
    ensures ReplaceAll("%" + file + "%" + LinkTail, "%line%", lineText) == "%" + file + ("%:%" + lineText + "%")
  {
    assert "%line%" == "%" + "line" + "%";
    DelimitedSkips(file, LinkTail, "line", lineText);
    LineStepTail(lineText);
  }

  /** The `%line%` pass fills in the line, leaving a `%` on either side. */
  lemma LinePass(file: string, lineText: string)
    requires '%' !in file && file != "line"
    ensures ReplaceAll(LinkHead + ("%" + file + "%" + LinkTail), "%line%", lineText)
         == LinkHead + "%" + file + "%:%" + lineText + "%"
  {
    var x := "%" + file + "%" + LinkTail;
    calc {
      ReplaceAll(LinkHead + x, "%line%", lineText);
      { ReplaceAllSkips(LinkHead, x, "%line%", lineText); }
      LinkHead + ReplaceAll(x, "%line%", lineText);
      { LineStepWord(file, lineText); }
      LinkHead + ("%" + file + ("%:%" + lineText + "%"));
      LinkHead + "%" + file + "%:%" + lineText + "%";
    }
  }

  /** The three passes in a row. */
  lemma TemplatePasses(file: string, relFile: string, lineText: string)
    requires '%' !in file && file != "relFile" && file != "line"
    ensures ReplaceAll(ReplaceAll(ReplaceAll(UrlTemplate, "%file%", file), "%relFile%", relFile), "%line%", lineText)
         == LinkHead + "%" + file + "%:%" + lineText + "%"
  {
    var s1 := ReplaceAll(UrlTemplate, "%file%", file);
    FilePass(file);
    assert s1 == LinkHead + ("%" + file + "%" + LinkTail);
    RelFilePass(file, relFile);
    LinePass(file, lineText);
  }

  /**
   * What the template yields: the path and the line each wrapped in a stray
   * `%`. This holds for every path without a `%` other than the two words
   * `relFile` and `line`, which a later replacement would swallow.
   */
  lemma DeepLinkAsWritten(file: string, relFile: string, lineText: string)
    requires '%' !in file && file != "relFile" && file != "line"
    ensures DeepLink(file, relFile, lineText) == "vscode://file/%" + file + "%:%" + lineText + "%"
  {
    StrReplaceThree(("%file%", file), ("%relFile%", relFile), ("%line%", lineText), UrlTemplate);
    TemplatePasses(file, relFile, lineText);
    assert LinkHead + "%" == "vscode://file/%";
  }
}
