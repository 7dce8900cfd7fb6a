/**
 The small configuration checks and texts of the service: the expected
 `_version` of the alias definitions and the XML declaration written before
 every saved document.
 */
module Header {
  import opened JavaString

  /** The `_version` the alias definitions must declare. */
  const PropVersion: string := "4.0"

  /** The XML declaration, with a placeholder for the encoding name:
      `<?xml version="1.0" encoding="<ph>"?>`, kept in its three parts. */
  const Placeholder: string := "<ph>"
  const DeclOpen: string := "?xml version=\"1.0\" encoding=\""
  const DeclClose: string := "\"?>"
  const XmlHeaderTemplate: string := "<" + DeclOpen + Placeholder + DeclClose

  /** `checkVersions` warns when the declared version differs from the
      expected one, ignoring case. */
  predicate VersionMismatch(propertiesVersion: string)
  {
    !EqualsIgnoreCase(PropVersion, propertiesVersion)
  }

  /** The expected version has no letters, so ignoring case makes no
      difference: the warning is given exactly when the declared version is
      not literally `4.0`. */
  lemma VersionMismatchIff(propertiesVersion: string)
    ensures VersionMismatch(propertiesVersion) <==> propertiesVersion != "4.0"
  {
    assert HasNoLetter(PropVersion) by {
      forall i | 0 <= i < |PropVersion| ensures !('A' <= PropVersion[i] <= 'Z' || 'a' <= PropVersion[i] <= 'z') {
        assert i == 0 || i == 1 || i == 2;
      }
    }
    EqualsIgnoreCaseNoLetter(PropVersion, propertiesVersion);
  }

  /** What `writeXmlHeader` writes for a charset: the template with the
      charset's name in place of the placeholder, then a newline. */
  function XmlHeader(charsetName: string): (r: string)
    ensures r == "<" + DeclOpen + charsetName + DeclClose + "\n"
  {
    TemplateFilled(charsetName);
    ReplaceAll(XmlHeaderTemplate, Placeholder, charsetName) + "\n"
  }

  /** The placeholder occurs once in the template, so `replaceAll` puts the
      charset's name in its place and leaves the rest alone. */
  lemma TemplateFilled(charsetName: string)
    ensures ReplaceAll(XmlHeaderTemplate, Placeholder, charsetName) == "<" + DeclOpen + charsetName + DeclClose
  {
    var rest := Placeholder + DeclClose;
    var t := XmlHeaderTemplate;
    assert t == "<" + (DeclOpen + rest);
    TemplateStart(charsetName);
    NoPlaceholderStart();
    ReplaceAllSkips(DeclOpen, rest, Placeholder, charsetName);
    PlaceholderReplaced(charsetName);
    assert "<" + (DeclOpen + (charsetName + DeclClose)) == "<" + DeclOpen + charsetName + DeclClose;
  }

  /** The template does not start with the placeholder. */
  lemma TemplateStart(charsetName: string)
    ensures ReplaceAll(XmlHeaderTemplate, Placeholder, charsetName)
         == "<" + ReplaceAll(XmlHeaderTemplate[1..], Placeholder, charsetName)
  {
    var t := XmlHeaderTemplate;
    assert t[1] == '?' && Placeholder[1] == 'p';
    assert t[..|Placeholder|] != Placeholder;
  }

  lemma PlaceholderReplaced(charsetName: string)
    ensures ReplaceAll(Placeholder + DeclClose, Placeholder, charsetName) == charsetName + DeclClose
  {
    var rest := Placeholder + DeclClose;
    assert rest[..|Placeholder|] == Placeholder && rest[|Placeholder|..] == DeclClose;
    NoPlaceholderStart();
    ReplaceAllSkips(DeclClose, [], Placeholder, charsetName);
    assert DeclClose + [] == DeclClose;
  }

  lemma NoPlaceholderStart()
    ensures '<' !in DeclOpen
    ensures '<' !in DeclClose
  {
  }
}
