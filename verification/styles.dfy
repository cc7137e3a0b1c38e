/**
 * The template style table of the PDF generator (`get_template_styles`):
 * for each template name, four paragraph styles keyed `h1`, `h2`, `normal`
 * and `bullet`. Only the fields the table sets explicitly are recorded; every
 * other field is inherited from the named sample style and stays `None` here.
 * Colours are opaque tokens.
 */
module Styles {
  import opened Optional

  /** The keys of a style sheet, in the order the converter emits them. */
  datatype StyleKey = H1 | H2 | Normal | Bullet

  /** The sample style a paragraph style inherits from. */
  datatype SampleStyle = SampleHeading1 | SampleHeading2 | SampleNormal

  datatype Colour = Hex(code: string) | Black | Gray

  datatype Alignment = Centre

  datatype ParaStyle = ParaStyle(
    name: string,
    parent: SampleStyle,
    fontSize: nat,
    leading: Option<nat>,
    spaceAfter: Option<nat>,
    leftIndent: Option<nat>,
    textColour: Option<Colour>,
    alignment: Option<Alignment>,
    fontName: Option<string>)

  /** The dictionary `{'h1': …, 'h2': …, 'normal': …, 'bullet': …}`: exactly
      four entries, one per key. */
  datatype StyleSheet = StyleSheet(h1: ParaStyle, h2: ParaStyle, normal: ParaStyle, bullet: ParaStyle) {
    function Get(key: StyleKey): ParaStyle {
      match key
      case H1 => h1
      case H2 => h2
      case Normal => normal
      case Bullet => bullet
    }
  }

  const TimesRoman: string := "Times-Roman"

  /** The template names the table recognises. */
  const KnownTemplates: set<string> := {"professional", "creative", "minimal", "executive"}

  /** A heading style: only the font size, colour, space after and (for `h1`)
      centring are set. */
  function Heading(name: string, parent: SampleStyle, fontSize: nat, colour: Colour, spaceAfter: nat, centred: bool): ParaStyle {
    ParaStyle(name, parent, fontSize, None, Some(spaceAfter), None, Some(colour),
              if centred then Some(Centre) else None, None)
  }

  /** A body style derived from the sample `Normal` style. */
  function Body(name: string, fontSize: nat, leading: nat, leftIndent: Option<nat>, fontName: Option<string>): ParaStyle {
    ParaStyle(name, SampleNormal, fontSize, Some(leading), None, leftIndent, None, None, fontName)
  }

  const ProfessionalSheet: StyleSheet := StyleSheet(
    Heading("Professional H1", SampleHeading1, 16, Hex("#2c3e50"), 6, true),
    Heading("Professional H2", SampleHeading2, 14, Hex("#2980b9"), 4, false),
    Body("Professional Normal", 11, 14, None, None),
    Body("Professional Bullet", 11, 14, Some(20), None))

  const CreativeSheet: StyleSheet := StyleSheet(
    Heading("Creative H1", SampleHeading1, 18, Hex("#8e44ad"), 8, true),
    Heading("Creative H2", SampleHeading2, 14, Hex("#d35400"), 6, false),
    Body("Creative Normal", 11, 15, None, None),
    Body("Creative Bullet", 11, 15, Some(20), None))

  const MinimalSheet: StyleSheet := StyleSheet(
    Heading("Minimal H1", SampleHeading1, 16, Black, 6, true),
    Heading("Minimal H2", SampleHeading2, 13, Gray, 4, false),
    Body("Minimal Normal", 10, 13, None, None),
    Body("Minimal Bullet", 10, 13, Some(15), None))

  const ExecutiveSheet: StyleSheet := StyleSheet(
    Heading("Executive H1", SampleHeading1, 18, Black, 10, true),
    Heading("Executive H2", SampleHeading2, 14, Black, 6, false),
    Body("Executive Normal", 11, 14, None, Some(TimesRoman)),
    Body("Executive Bullet", 11, 14, Some(20), Some(TimesRoman)))

  /** `get_template_styles(template)`: total, with every unrecognised name
      resolved as `professional`. */
  function TemplateStyles(template: string): (r: StyleSheet)
    ensures r.h1.alignment == Some(Centre)
    ensures r.h2.alignment == None
    ensures r.h1.parent == SampleHeading1 && r.h2.parent == SampleHeading2
    ensures r.normal.parent == SampleNormal && r.bullet.parent == SampleNormal
    ensures r.bullet.fontSize == r.normal.fontSize && r.bullet.leading == r.normal.leading
    ensures r.bullet.leftIndent == Some(if template == "minimal" then 15 else 20)
    ensures r.normal.leftIndent == None
    ensures r.normal.fontName == Some(TimesRoman) <==> template == "executive"
    ensures r.bullet.fontName == r.normal.fontName
    ensures r.h1.fontSize > r.h2.fontSize > r.normal.fontSize
    decreases if template in KnownTemplates then 0 else 1
  {
    if template == "professional" then ProfessionalSheet
    else if template == "creative" then CreativeSheet
    else if template == "minimal" then MinimalSheet
    else if template == "executive" then ExecutiveSheet
    else TemplateStyles("professional")
  }

  /** Any name outside the four recognised ones yields `professional`'s sheet. */
  lemma UnknownTemplateIsProfessional(template: string)
    ensures template !in KnownTemplates ==> TemplateStyles(template) == TemplateStyles("professional")
  {
  }

  /** The four recognised templates give four different sheets, so the
      fallback is the only place two names share a sheet. */
  lemma KnownTemplatesDistinct(a: string, b: string)
    requires a in KnownTemplates && b in KnownTemplates
    ensures TemplateStyles(a) == TemplateStyles(b) <==> a == b
  {
    if a != b {
      assert TemplateStyles(a).h1.name != TemplateStyles(b).h1.name;
    }
  }
}
