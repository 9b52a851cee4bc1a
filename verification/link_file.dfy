/** The decision logic of `HtmlHandler` in worker.py: which created files are
    looked at (`NAME_REGEX`), which contents count as a link file
    (`CONTENT_REGEX`, `__is_correct_file`) and which URL is taken from them
    (`__extract_url`, `on_created`). */
module LinkFile {
  import opened Base
  import opened Template

  /** `CONTENT_REGEX`, item by item: the fixed tags and attribute
      fragments as literals, each gap between them as `.*`, the optional
      slash closing the meta tag, and the anchor text as the one group. */
  const ContentTemplate: seq<Piece> := [
    Lit("<html><head><meta"), Star,
    Lit("http-equiv=\"Content-Type\""), Star,
    Lit("content=\"text/html"), Star,
    Lit("\""), Opt('/'),
    Lit("></head><body><a"), Star,
    Lit("href=\""), Star,
    Lit("\""), Star,
    Lit(">"), Group,
    Lit("</a></body></html>")
  ]

  /** Position of the anchor-text group `(.*)` in `ContentTemplate`. */
  const UrlSlot: nat := 15

  /** The facts about `CONTENT_REGEX` the proofs below rely on: seventeen
      items, the first group at `UrlSlot`, no newline in any literal, and a
      non-empty literal first. */
  predicate ContentShaped(t: seq<Piece>) {
    && |t| == 17
    && GroupIndex(t) == Some(UrlSlot)
    && SingleLine(t)
    && t[0].Lit? && |t[0].text| > 0
  }

  lemma ContentLiteralsSingleLine()
    ensures NoNewline("<html><head><meta")
    ensures NoNewline("http-equiv=\"Content-Type\"")
    ensures NoNewline("content=\"text/html")
    ensures NoNewline("\"")
    ensures NoNewline("></head><body><a")
    ensures NoNewline("href=\"")
    ensures NoNewline(">")
    ensures NoNewline("</a></body></html>")
  {
  }

  lemma ContentTemplateSingleLine()
    ensures SingleLine(ContentTemplate)
  {
    ContentLiteralsSingleLine();
  }

  /** `CONTENT_REGEX` has the shape the proofs rely on. */
  lemma ContentTemplateShaped()
    ensures ContentShaped(ContentTemplate)
  {
    GroupIndexAt(ContentTemplate, UrlSlot);
    ContentTemplateSingleLine();
  }

  /** Templates of the shape of `CONTENT_REGEX`; the handler carries one. */
  type ContentRegex = t: seq<Piece> | ContentShaped(t) witness (ContentTemplateShaped(); ContentTemplate)

  /** Anchored matching succeeds exactly on the contents that look like a
      link file. */
  lemma LooksLikeIffMatch(t: ContentRegex, content: string)
    ensures LooksLikeLinkFile(t, content) <==> Match(t, content, 0).Some?
  {
    if LooksLikeLinkFile(t, content) {
      var parts :| Decomposes(t, content, 0, parts);
      MatchComplete(t, content, 0, parts);
    }
    if Match(t, content, 0).Some? {
      var m := Match(t, content, 0).value;
      MatchSound(t, content, 0);
      assert Decomposes(t, content, 0, m);
    }
  }

  /** The content has the shape of a link file from its first character on:
      some decomposition of a prefix fits the template. */
  ghost predicate LooksLikeLinkFile(t: ContentRegex, content: string) {
    exists parts :: Decomposes(t, content, 0, parts)
  }

  /** The captures `findall` reports for the content. */
  function Urls(t: ContentRegex, content: string): seq<string> {
    FindAll(t, content, 0)
  }

  // ---------------------------------------------------------------------
  // Name filter

  /** `path[..j]` is a stem without newline, `path[j..k]` is the extension
      `x`, and after it comes the end of the path or a final newline. */
  predicate NameSplit(path: string, j: nat, k: nat, x: string, ignoreCase: bool) {
    && j <= k <= |path|
    && NoNewline(path[..j])
    && LitEquals(x, path[j..k], ignoreCase)
    && (k == |path| || path[k..] == "\n")
  }

  /** `NAME_REGEX` `.*\.(html|htm)$` as `re.match` reads a path (`$` also
      matches just before a trailing newline). */
  ghost predicate NamePattern(path: string, ignoreCase: bool) {
    exists j: nat, k: nat :: NameSplit(path, j, k, ".html", ignoreCase) || NameSplit(path, j, k, ".htm", ignoreCase)
  }

  /** The path without one trailing newline. */
  function Body(path: string): (b: string)
    ensures |path| > 0 && path[|path| - 1] == '\n' ==> path == b + "\n"
    ensures !(|path| > 0 && path[|path| - 1] == '\n') ==> b == path
  {
    if |path| > 0 && path[|path| - 1] == '\n' then path[..|path| - 1] else path
  }

  /** `b` ends in extension `x` and has no newline before it. */
  predicate HasExtension(b: string, x: string, ignoreCase: bool) {
    |x| <= |b| && LitEquals(x, b[|b| - |x|..], ignoreCase) && NoNewline(b[..|b| - |x|])
  }

  /** The name filter applied to a path before `on_created` runs. */
  function NameAccepted(path: string, ignoreCase: bool): bool {
    HasExtension(Body(path), ".html", ignoreCase) || HasExtension(Body(path), ".htm", ignoreCase)
  }

  lemma ExtensionGivesSplit(path: string, x: string, ignoreCase: bool)
    requires HasExtension(Body(path), x, ignoreCase)
    ensures NameSplit(path, |Body(path)| - |x|, |Body(path)|, x, ignoreCase)
  {
    var body := Body(path);
    var j, k := |body| - |x|, |body|;
    assert path[..j] == body[..j];
    assert path[j..k] == body[j..];
    if k < |path| {
      assert path[k..] == "\n";
    }
  }

  lemma NameAcceptedSound(path: string, ignoreCase: bool)
    requires NameAccepted(path, ignoreCase)
    ensures NamePattern(path, ignoreCase)
  {
    var body := Body(path);
    var x := if HasExtension(body, ".html", ignoreCase) then ".html" else ".htm";
    ExtensionGivesSplit(path, x, ignoreCase);
    var j: nat, k: nat := |body| - |x|, |body|;
    assert NameSplit(path, j, k, ".html", ignoreCase) || NameSplit(path, j, k, ".htm", ignoreCase);
  }

  /** A text equal to an extension ends in the extension's last letter,
      never in a newline. */
  lemma ExtensionEndsInLetter(w: string, x: string, ignoreCase: bool)
    requires |x| > 0 && 'a' <= x[|x| - 1] <= 'z' && LitEquals(x, w, ignoreCase)
    ensures |w| > 0 && w[|w| - 1] != '\n'
  {
    if ignoreCase {
      assert SameFold(x[|w| - 1], w[|w| - 1]);
    }
  }

  lemma SplitGivesExtension(path: string, j: nat, k: nat, x: string, ignoreCase: bool)
    requires |x| > 0 && 'a' <= x[|x| - 1] <= 'z' && NameSplit(path, j, k, x, ignoreCase)
    ensures HasExtension(Body(path), x, ignoreCase)
  {
    ExtensionEndsInLetter(path[j..k], x, ignoreCase);
    assert path[j..k][k - j - 1] == path[k - 1];
    var body := Body(path);
    if k == |path| {
      assert body == path;
    } else {
      assert path[|path| - 1] == path[k..][0];
      assert body == path[..k];
    }
    assert body[..j] == path[..j];
    assert body[j..] == path[j..k];
  }

  lemma NameAcceptedComplete(path: string, ignoreCase: bool)
    requires NamePattern(path, ignoreCase)
    ensures NameAccepted(path, ignoreCase)
  {
    var j: nat, k: nat :| NameSplit(path, j, k, ".html", ignoreCase) || NameSplit(path, j, k, ".htm", ignoreCase);
    if NameSplit(path, j, k, ".html", ignoreCase) {
      SplitGivesExtension(path, j, k, ".html", ignoreCase);
    } else {
      SplitGivesExtension(path, j, k, ".htm", ignoreCase);
    }
  }

  /** The name filter is exactly `NAME_REGEX`. */
  lemma NameAcceptedIsPattern(path: string, ignoreCase: bool)
    ensures NameAccepted(path, ignoreCase) <==> NamePattern(path, ignoreCase)
  {
    if NameAccepted(path, ignoreCase) { NameAcceptedSound(path, ignoreCase); }
    if NamePattern(path, ignoreCase) { NameAcceptedComplete(path, ignoreCase); }
  }

  /** Texts that differ in one letter even after case folding are not equal. */
  lemma LitDiffers(x: string, w: string, ignoreCase: bool, k: nat)
    requires |w| == |x| && k < |x| && Fold(x[k]) != Fold(w[k])
    ensures !LitEquals(x, w, ignoreCase)
  {
  }

  /** Other extensions, and `.html` in the middle of a name, are never
      looked at. */
  lemma NamesRejected(ignoreCase: bool)
    ensures !NamePattern("b.txt", ignoreCase)
    ensures !NamePattern("a.html.bak", ignoreCase)
  {
    assert Body("b.txt") == "b.txt";
    assert "b.txt"[0..] == "b.txt" && "b.txt"[1..] == ".txt";
    LitDiffers(".html", "b.txt", ignoreCase, 0);
    LitDiffers(".htm", ".txt", ignoreCase, 1);
    NameAcceptedIsPattern("b.txt", ignoreCase);
    assert Body("a.html.bak") == "a.html.bak";
    assert "a.html.bak"[5..] == "l.bak" && "a.html.bak"[6..] == ".bak";
    LitDiffers(".html", "l.bak", ignoreCase, 0);
    LitDiffers(".htm", ".bak", ignoreCase, 1);
    NameAcceptedIsPattern("a.html.bak", ignoreCase);
  }

  lemma NamesAccepted(ignoreCase: bool)
    ensures NamePattern("D/a.html", ignoreCase)
    ensures NamePattern("D/a.htm", ignoreCase)
  {
    assert Body("D/a.html") == "D/a.html" && "D/a.html"[3..] == ".html" && "D/a.html"[..3] == "D/a";
    assert HasExtension("D/a.html", ".html", ignoreCase);
    NameAcceptedIsPattern("D/a.html", ignoreCase);
    assert Body("D/a.htm") == "D/a.htm" && "D/a.htm"[3..] == ".htm" && "D/a.htm"[..3] == "D/a";
    assert HasExtension("D/a.htm", ".htm", ignoreCase);
    NameAcceptedIsPattern("D/a.htm", ignoreCase);
  }

  /** Letter case in the extension matters only when the filter is case
      sensitive. */
  lemma NameLetterCase()
    ensures NamePattern("D/a.HTML", true)
    ensures !NamePattern("D/a.HTML", false)
  {
    NameAcceptedIsPattern("D/a.HTML", true);
    NameAcceptedIsPattern("D/a.HTML", false);
  }

  // ---------------------------------------------------------------------
  // Content check and extraction

  /** A successful anchored match is also the first thing `findall` reports,
      and its capture is a single line. */
  lemma AnchoredMatchFacts(t: ContentRegex, content: string)
    ensures Match(t, content, 0).Some? ==>
      var m := Match(t, content, 0).value;
      && |Urls(t, content)| >= 1
      && Urls(t, content)[0] == m[UrlSlot]
      && NoNewline(m[UrlSlot])
  {
    if Match(t, content, 0).Some? {
      var m := Match(t, content, 0).value;
      FindAllStartsWithAnchoredMatch(t, content, 0);
      MatchSound(t, content, 0);
      MatchWithinOneLine(t, content, 0, m);
    }
  }

  /** `__is_correct_file`: anchored match, then the single-target unpacking of
      `findall` (which raises unless there is exactly one capture), then the
      URL predicate. */
  function IsCorrectFile(t: ContentRegex, content: string, isUrl: string -> bool): (r: Result<bool, Fault>)
    ensures !LooksLikeLinkFile(t, content) ==> r == Ok(false)
    ensures r.Err? <==> LooksLikeLinkFile(t, content) && |Urls(t, content)| >= 2
    ensures r.Err? ==> r.error == UnpackError(|Urls(t, content)|)
    ensures r == Ok(true) <==>
      LooksLikeLinkFile(t, content) && |Urls(t, content)| == 1 && isUrl(Urls(t, content)[0])
    ensures r == Ok(true) ==> NoNewline(Urls(t, content)[0])
  {
    LooksLikeIffMatch(t, content);
    AnchoredMatchFacts(t, content);
    if Match(t, content, 0).None? then Ok(false)
    else
      var urls := Urls(t, content);
      if |urls| != 1 then Err(UnpackError(|urls|))
      else Ok(isUrl(urls[0]))
  }

  /** `__extract_url`: the single-target unpacking of `findall`. For a file
      that looks like a link file, the URL is the anchor text of the match
      at the start. */
  function ExtractUrl(t: ContentRegex, content: string): (r: Result<string, Fault>)
    ensures r.Err? ==> r.error == UnpackError(|Urls(t, content)|) && |Urls(t, content)| != 1
    ensures r.Ok? ==> Urls(t, content) == [r.value]
    ensures LooksLikeLinkFile(t, content) ==>
      var m := Match(t, content, 0);
      m.Some? && (r.Ok? ==> r.value == m.value[UrlSlot] && NoNewline(r.value))
  {
    LooksLikeIffMatch(t, content);
    AnchoredMatchFacts(t, content);
    var urls := Urls(t, content);
    if |urls| != 1 then Err(UnpackError(|urls|)) else Ok(urls[0])
  }

  /** What happens to one created file that passed the name filter. */
  datatype Outcome =
    | Skipped            // `on_created` returns without calling back
    | Found(url: string) // the callback is invoked with `url`
    | Raised(fault: Fault)

  /** `on_created`: check the file, then extract and hand over the URL. */
  function OnCreated(t: ContentRegex, content: string, isUrl: string -> bool): (r: Outcome)
    ensures r.Found? <==>
      LooksLikeLinkFile(t, content) && |Urls(t, content)| == 1 && isUrl(Urls(t, content)[0])
    ensures r.Found? ==> r.url == Urls(t, content)[0] && NoNewline(r.url)
    ensures r.Raised? <==> LooksLikeLinkFile(t, content) && |Urls(t, content)| >= 2
    ensures r.Raised? ==> r.fault == UnpackError(|Urls(t, content)|)
  {
    match IsCorrectFile(t, content, isUrl)
    case Err(f) => Raised(f)
    case Ok(ok) =>
      if !ok then Skipped
      else
        match ExtractUrl(t, content)
        case Err(f) => Raised(f)
        case Ok(url) => Found(url)
  }

  /** The URL handed over is the anchor text of the decomposition Python's
      engine prefers (every `.*` as long as the rest allows, earliest first). */
  lemma FoundUrlIsPreferredCapture(t: ContentRegex, content: string, isUrl: string -> bool, parts: seq<string>)
    requires OnCreated(t, content, isUrl).Found?
    requires Preferred(t, content, 0, parts)
    ensures OnCreated(t, content, isUrl).url == parts[UrlSlot]
  {
    LooksLikeIffMatch(t, content);
    MatchIsPreferred(t, content, 0);
    AnchoredMatchFacts(t, content);
  }

  /** Text after `</html>` does not stop a file from looking like a link file. */
  lemma TrailingTextAllowed(t: ContentRegex, content: string, rest: string)
    requires LooksLikeLinkFile(t, content)
    ensures LooksLikeLinkFile(t, content + rest)
  {
    LooksLikeIffMatch(t, content);
    MatchIgnoresTrailing(t, content, rest, 0);
    LooksLikeIffMatch(t, content + rest);
  }

  /** The template's literals are compared ignoring letter case. */
  lemma LetterCaseIgnored(t: ContentRegex, content: string, content': string)
    requires |content'| == |content| && FoldEquals(content, content')
    ensures LooksLikeLinkFile(t, content) <==> LooksLikeLinkFile(t, content')
  {
    LooksLikeIffMatch(t, content);
    LooksLikeIffMatch(t, content');
    MatchIgnoresCase(t, content, content', 0);
  }

  /** A file whose first line and some later line both have the template's
      shape yields two captures, so the unpacking raises instead of the file
      being skipped. */
  lemma TwoLinkLinesRaise(t: ContentRegex, content: string, q: nat, isUrl: string -> bool)
    requires LooksLikeLinkFile(t, content)
    requires 0 < q <= |content| && content[q - 1] == '\n'
    requires Match(t, content, q).Some?
    ensures |Urls(t, content)| >= 2
    ensures OnCreated(t, content, isUrl) == Raised(UnpackError(|Urls(t, content)|))
  {
    LooksLikeIffMatch(t, content);
    var m := Match(t, content, 0).value;
    MatchSound(t, content, 0);
    MatchWithinOneLine(t, content, 0, m);
    MatchedText(t, content, 0, m);
    MatchLongerThanHead(t, content, 0, m);
    var e := |Concat(m)|;
    assert e < q;
    FindAllNonEmpty(t, content, e, q);
    assert Search(t, content, 0) == Some((0, m));
  }
}
