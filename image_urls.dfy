/** The image-URL pattern of the upload validator,
    `^(http|https)://[^\s/$.?#].[^\s]*\.(jpg|jpeg|png|gif)$` matched with
    IGNORECASE, written as a parser that splits a URL into the pieces the
    pattern consumes, and a renderer that puts them back together. */
module ImageUrls {
  import opened Results
  import opened Text

  /** The pieces one match of the pattern consumes, in order. `trailingNewline`
      records the single final newline that Python's `$` lets through. */
  datatype UrlParts = UrlParts(
    scheme: string,        // (http|https)
    first: char,           // [^\s/$.?#]
    second: char,          // .
    tail: string,          // [^\s]*
    ext: string,           // (jpg|jpeg|png|gif)
    trailingNewline: bool) // what `$` allows after the match

  predicate IsScheme(s: string) {
    EqualsIgnoringCase(s, "http") || EqualsIgnoringCase(s, "https")
  }

  /** The class `[^\s/$.?#]`. */
  predicate IsHostStart(c: char) {
    !IsSpace(c) && c != '/' && c != '$' && c != '.' && c != '?' && c != '#'
  }

  predicate IsImageExtension(e: string) {
    || EqualsIgnoringCase(e, "jpg") || EqualsIgnoringCase(e, "jpeg")
    || EqualsIgnoringCase(e, "png") || EqualsIgnoringCase(e, "gif")
  }

  /** Every piece has the shape its part of the pattern demands. */
  predicate WellFormed(p: UrlParts) {
    && IsScheme(p.scheme)
    && IsHostStart(p.first)
    && p.second != '\n'
    && NoSpace(p.tail)
    && IsImageExtension(p.ext)
  }

  function Render(p: UrlParts): string {
    p.scheme + "://" + [p.first, p.second] + p.tail + "." + p.ext + (if p.trailingNewline then "\n" else "")
  }

  /** Length of the scheme name when `u` starts with `http://` or `https://`
      (any case), else 0. */
  function SchemeLength(u: string): (n: nat)
    ensures n == 0 || n == 4 || n == 5
    ensures n != 0 ==> |u| >= n + 3 && u[n..n + 3] == "://" && IsScheme(u[..n])
  {
    if |u| >= 7 && EqualsIgnoringCase(u[..4], "http") && u[4..7] == "://" then 4
    else if |u| >= 8 && EqualsIgnoringCase(u[..5], "https") && u[5..8] == "://" then 5
    else 0
  }

  /** Length of the extension when `body` ends with `.` and an image extension,
      else 0. */
  function ExtensionLength(body: string): (e: nat)
    ensures e == 0 || e == 3 || e == 4
    ensures e != 0 ==> |body| >= e + 1 && body[|body| - e - 1] == '.' && IsImageExtension(body[|body| - e..])
  {
    if |body| >= 4 && body[|body| - 4] == '.' && IsImageExtension(body[|body| - 3..]) then 3
    else if |body| >= 5 && body[|body| - 5] == '.' && IsImageExtension(body[|body| - 4..]) then 4
    else 0
  }

  /** The pieces of `u` when the scheme name has length `n` and the extension
      length `e`. */
  function Pieces(u: string, n: nat, e: nat): UrlParts
    requires n + e + 6 <= |u|
  {
    UrlParts(u[..n], u[n + 3], u[n + 4], u[n + 5..|u| - e - 1], u[|u| - e..], false)
  }

  /** The match when `$` is taken at the very end of `u`: the scheme ends at
      `n`, `://` follows, then the two single characters, then the body that
      ends with the extension. */
  function ParseExact(u: string): Option<UrlParts> {
    var n := SchemeLength(u);
    if n == 0 || |u| < n + 5 then None
    else
      var e := ExtensionLength(u[n + 5..]);
      if e == 0 || !NoSpace(u[n + 5..]) || !IsHostStart(u[n + 3]) || u[n + 4] == '\n' then None
      else Some(Pieces(u, n, e))
  }

  /** The match of the whole pattern: `$` also matches just before one final
      newline. */
  function Parse(u: string): Option<UrlParts> {
    match ParseExact(u)
    case Some(p) => Some(p)
    case None =>
      if |u| > 0 && u[|u| - 1] == '\n' then
        match ParseExact(u[..|u| - 1])
        case Some(p) => Some(p.(trailingNewline := true))
        case None => None
      else None
  }

  /** `is_valid_image_url`. */
  predicate IsValidImageUrl(u: string) {
    Parse(u).Some?
  }

  /** Rendering the pieces cut out of `u` gives `u` back. */
  lemma RenderPieces(u: string, n: nat, e: nat)
    requires n + e + 6 <= |u| && u[n..n + 3] == "://" && u[|u| - e - 1] == '.'
    ensures Render(Pieces(u, n, e)) == u
  {
    var p := Pieces(u, n, e);
    assert u == u[..n] + u[n..n + 3] + u[n + 3..n + 5] + u[n + 5..|u| - e - 1] + u[|u| - e - 1..|u| - e] + u[|u| - e..];
    assert u[n + 3..n + 5] == [p.first, p.second];
    assert u[|u| - e - 1..|u| - e] == ".";
  }

  lemma ParseExactWellFormed(u: string)
    requires ParseExact(u).Some?
    ensures WellFormed(ParseExact(u).value) && !ParseExact(u).value.trailingNewline
  {
    var n := SchemeLength(u);
    assert n != 0 && |u| >= n + 5;
    var body := u[n + 5..];
    var e := ExtensionLength(body);
    assert e != 0 && NoSpace(body) && IsHostStart(u[n + 3]) && u[n + 4] != '\n';
    BodySlices(u, n + 5, e);
    NoSpacePrefix(body, |body| - e - 1);
    var p := Pieces(u, n, e);
    assert ParseExact(u) == Some(p);
    assert IsScheme(p.scheme) && IsImageExtension(p.ext) && NoSpace(p.tail);
  }

  /** The tail and the extension, cut from the body, are cut from the URL. */
  lemma BodySlices(u: string, k: nat, e: nat)
    requires k + e + 1 <= |u|
    ensures u[k..][|u| - k - e..] == u[|u| - e..]
    ensures u[k..][..|u| - k - e - 1] == u[k..|u| - e - 1]
  {
  }

  lemma NoSpacePrefix(s: string, k: nat)
    requires NoSpace(s) && k <= |s|
    ensures NoSpace(s[..k])
  {
    forall i | 0 <= i < k ensures !IsSpace(s[..k][i]) {
      assert s[..k][i] == s[i];
    }
  }

  /** Whatever the exact parser accepts is a rendering of well-formed pieces
      without the final newline. */
  lemma ParseExactSound(u: string)
    requires ParseExact(u).Some?
    ensures WellFormed(ParseExact(u).value) && !ParseExact(u).value.trailingNewline
    ensures Render(ParseExact(u).value) == u
  {
    ParseExactWellFormed(u);
    var n := SchemeLength(u);
    var e := ExtensionLength(u[n + 5..]);
    assert u[n + 5..][|u[n + 5..]| - e - 1] == u[|u| - e - 1];
    RenderPieces(u, n, e);
  }

  /** Whatever the parser accepts is a rendering of well-formed pieces. */
  lemma ParseSound(u: string)
    requires IsValidImageUrl(u)
    ensures WellFormed(Parse(u).value) && Render(Parse(u).value) == u
  {
    if ParseExact(u).Some? {
      ParseExactSound(u);
      assert Parse(u) == ParseExact(u);
    } else {
      var v := u[..|u| - 1];
      var q := ParseExact(v).value;
      assert Parse(u) == Some(q.(trailingNewline := true));
      ParseExactSound(v);
      RenderWithNewline(q);
      assert u == v + "\n";
    }
  }

  /** The final newline is rendered after everything else. */
  lemma RenderWithNewline(p: UrlParts)
    requires !p.trailingNewline
    ensures Render(p.(trailingNewline := true)) == Render(p) + "\n"
  {
  }

  /** A rendering starts with the scheme and `://`. */
  lemma RenderPrefix(p: UrlParts)
    ensures var u := Render(p);
      |u| >= |p.scheme| + 5 && u[..|p.scheme|] == p.scheme && u[|p.scheme|..|p.scheme| + 3] == "://"
  {
    var u := Render(p);
    assert u == p.scheme + ("://" + ([p.first, p.second] + p.tail + "." + p.ext + (if p.trailingNewline then "\n" else "")));
  }

  lemma SchemeLengthOfRender(p: UrlParts)
    requires IsScheme(p.scheme)
    ensures SchemeLength(Render(p)) == |p.scheme|
  {
    var u := Render(p);
    RenderPrefix(p);
    if |p.scheme| == 5 {
      assert u[4] == p.scheme[4];
      assert LowerChar(p.scheme[4]) == 's';
    }
  }

  lemma ExtensionLengthOfBody(tail: string, ext: string)
    requires IsImageExtension(ext)
    ensures ExtensionLength(tail + "." + ext) == |ext|
  {
    var body := tail + "." + ext;
    assert body[|body| - |ext|..] == ext;
    assert body[|body| - |ext| - 1] == '.';
    if |ext| == 4 {
      assert body[|body| - 4] == ext[0];
      assert LowerChar(ext[0]) == 'j';
    }
  }

  /** Extensions are letters, so they hold no whitespace. */
  lemma ExtensionHasNoSpace(ext: string)
    requires IsImageExtension(ext)
    ensures NoSpace(ext)
  {
    forall i | 0 <= i < |ext| ensures !IsSpace(ext[i]) {
      assert 'a' <= LowerChar(ext[i]) <= 'z';
    }
  }

  lemma BodyHasNoSpace(tail: string, ext: string)
    requires NoSpace(tail) && IsImageExtension(ext)
    ensures NoSpace(tail + "." + ext)
  {
    ExtensionHasNoSpace(ext);
    var body := tail + "." + ext;
    forall i | 0 <= i < |body| ensures !IsSpace(body[i]) {
      if i < |tail| {
        assert body[i] == tail[i];
      } else if i > |tail| {
        assert body[i] == ext[i - |tail| - 1];
      }
    }
  }

  /** Where each piece sits in a rendering without the final newline. */
  lemma RenderSlices(p: UrlParts)
    requires !p.trailingNewline
    ensures var u := Render(p);
      var n := |p.scheme|;
      var e := |p.ext|;
      && |u| == n + e + 6 + |p.tail|
      && u[..n] == p.scheme && u[n..n + 3] == "://"
      && u[n + 3] == p.first && u[n + 4] == p.second
      && u[n + 5..] == p.tail + "." + p.ext
      && u[n + 5..|u| - e - 1] == p.tail && u[|u| - e..] == p.ext
  {
    var u := Render(p);
    assert u == p.scheme + "://" + [p.first, p.second] + p.tail + "." + p.ext;
  }

  lemma ParseExactComplete(p: UrlParts)
    requires WellFormed(p) && !p.trailingNewline
    ensures ParseExact(Render(p)) == Some(p)
  {
    var u := Render(p);
    RenderSlices(p);
    SchemeLengthOfRender(p);
    ExtensionLengthOfBody(p.tail, p.ext);
    BodyHasNoSpace(p.tail, p.ext);
    assert Pieces(u, |p.scheme|, |p.ext|) == p;
  }

  /** A string whose last character is a newline has no exact match: the
      pattern must end with an extension letter there. */
  lemma NoExactMatchBeforeNewline(u: string)
    requires |u| > 0 && u[|u| - 1] == '\n'
    ensures ParseExact(u).None?
  {
    var n := SchemeLength(u);
    if n != 0 && |u| > n + 5 {
      var body := u[n + 5..];
      assert body[|body| - 1] == '\n';
    }
  }

  /** Rendering well-formed pieces and parsing the result gives the pieces back. */
  lemma ParseComplete(p: UrlParts)
    requires WellFormed(p)
    ensures Parse(Render(p)) == Some(p)
  {
    var q := p.(trailingNewline := false);
    ParseExactComplete(q);
    if p.trailingNewline {
      var u := Render(p);
      assert u == Render(q) + "\n";
      assert u[..|u| - 1] == Render(q);
      NoExactMatchBeforeNewline(u);
    }
  }

  /** The URL check holds exactly of the strings the pattern describes. */
  lemma ValidIffRendered(u: string)
    ensures IsValidImageUrl(u) <==> exists p :: WellFormed(p) && Render(p) == u
  {
    if IsValidImageUrl(u) {
      ParseSound(u);
    }
    if exists p :: WellFormed(p) && Render(p) == u {
      var p :| WellFormed(p) && Render(p) == u;
      ParseComplete(p);
    }
  }

  /** The rendering of pieces with an empty tail. */
  lemma RenderShortHost(scheme: string, a: char, b: char, ext: string)
    ensures Render(UrlParts(scheme, a, b, "", ext, false)) == scheme + "://" + [a, b] + "." + ext
  {
  }

  /** Two characters between `://` and the extension are enough: any host
      start followed by any character but a newline, a space included, as in
      `http://ab.jpg` or `HTTPS://a .PNG`. */
  lemma TwoCharacterHostAccepted(scheme: string, a: char, b: char, ext: string)
    requires IsScheme(scheme) && IsHostStart(a) && b != '\n' && IsImageExtension(ext)
    ensures IsValidImageUrl(scheme + "://" + [a, b] + "." + ext)
  {
    RenderShortHost(scheme, a, b, ext);
    ParseComplete(UrlParts(scheme, a, b, "", ext, false));
  }

  /** Case is ignored in the scheme and the extension: `http`, `HTTPS`, `jpg`
      and `PNG` all qualify. */
  lemma CaseIgnored()
    ensures IsScheme("http") && IsScheme("HTTPS") && IsImageExtension("jpg") && IsImageExtension("PNG")
  {
    assert EqualsIgnoringCase("http", "http");
    assert EqualsIgnoringCase("HTTPS", "https");
    assert EqualsIgnoringCase("jpg", "jpg");
    assert EqualsIgnoringCase("PNG", "png");
  }

  lemma OneCharacterHostRejected()
    ensures !IsValidImageUrl("http://a.jpg")
  {
    var u := "http://a.jpg";
    assert u[..4] == "http" && u[4..7] == "://";
    assert SchemeLength(u) == 4;
    assert u[9..] == "jpg";
    assert ExtensionLength(u[9..]) == 0;
    assert u[|u| - 1] != '\n';
  }

  /** The scheme comes first, so a URL that matches does not start with
      whitespace. */
  lemma NoLeadingSpace(u: string)
    requires IsValidImageUrl(u)
    ensures |u| > 0 && !IsSpace(u[0])
  {
    ParseSound(u);
    var p := Parse(u).value;
    assert u[0] == p.scheme[0];
  }
}
