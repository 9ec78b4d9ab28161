/**
 * The printable pitch page of app/api/export/pdf/route.ts: a template literal whose holes are filled
 * from a generation row, with nullish defaults and the feature-list fold.
 */
module PrintPage {
  import opened Text
  import opened Json
  import opened Records

  // ---------------------------------------------------------------------------
  // The printable page

  datatype Slot =
    | NameSlot | AccentSlot | TaglineSlot | DescriptionSlot | AudienceSlot | FeaturesSlot
    | PrimarySwatchSlot | SecondarySwatchSlot | AccentSwatchSlot
    | PrimaryLabelSlot | SecondaryLabelSlot | AccentLabelSlot | DateSlot

  /** A template literal: fixed text and interpolation holes. */
  datatype Part = Static(piece: Piece) | Hole(slot: Slot)

  /** The fixed pieces of text of the pitch page, named by what lies on either side of them. */
  datatype Piece =
    | PageHead | TitleToHeaderRule | HeaderRuleToLogoColour | LogoColourToTitleColour
    | TitleColourToCheckColour | CheckColourToLogo | LogoToTagline | TaglineToSummary
    | SummaryToAudience | AudienceToFeatures | FeaturesToPrimary | PrimarySwatchToLabel
    | PrimaryToSecondary | SecondarySwatchToLabel | SecondaryToAccent | AccentSwatchToLabel
    | AccentToFooter | PageEnd

  /** The characters of each piece, as the route's template literal writes them. */
  function PieceText(p: Piece): string
  {
    match p
    case PageHead =>
      "\n"
      + "<!DOCTYPE html>\n"
      + "<html>\n"
      + "<head>\n"
      + "  <meta charset=\"UTF-8\">\n"
      + "  <title>"
    case TitleToHeaderRule =>
      " - Startup Pitch</title>\n"
      + "  <style>\n"
      + "    *{margin:0;padding:0;box-sizing:border-box}\n"
      + "    body{font-family:-apple-system,BlinkMacSystemFont,'Segoe UI',Roboto,'Helvetica Neue',Arial,sans-serif;line-height:1.6;color:#1a1a1a;padding:60px;max-width:800px;margin:0 auto}\n"
      + "    .header{text-align:center;margin-bottom:60px;padding-bottom:30px;border-bottom:3px solid "
    case HeaderRuleToLogoColour =>
      "}\n"
      + "    .logo{font-size:48px;font-weight:bold;color:"
    case LogoColourToTitleColour =>
      ";margin-bottom:10px}\n"
      + "    .tagline{font-size:20px;font-style:italic;color:#666;margin-top:10px}\n"
      + "    .section{margin-bottom:40px}\n"
      + "    .section-title{font-size:24px;font-weight:bold;color:"
    case TitleColourToCheckColour =>
      ";margin-bottom:15px;padding-bottom:10px;border-bottom:2px solid #e0e0e0}\n"
      + "    .section-content{font-size:16px;color:#333;line-height:1.8}\n"
      + "    .features-list{list-style:none;padding-left:0}\n"
      + "    .features-list li{padding:12px 0;padding-left:30px;position:relative}\n"
      + "    .features-list li:before{content:\"\U{2713}\";position:absolute;left:0;color:"
    case CheckColourToLogo =>
      ";font-weight:bold;font-size:20px}\n"
      + "    .color-scheme{display:flex;gap:30px;margin-top:20px}\n"
      + "    .color-box{text-align:center}\n"
      + "    .color-swatch{width:100px;height:100px;border-radius:8px;margin-bottom:10px;border:2px solid #e0e0e0}\n"
      + "    .color-label{font-size:14px;color:#666;font-weight:500}\n"
      + "    .footer{margin-top:60px;padding-top:30px;border-top:2px solid #e0e0e0;text-align:center;color:#999;font-size:14px}\n"
      + "    @media print{body{padding:40px}}\n"
      + "  </style>\n"
      + "</head>\n"
      + "<body>\n"
      + "  <div class=\"header\">\n"
      + "    <div class=\"logo\">"
    case LogoToTagline =>
      "</div>\n"
      + "    <div class=\"tagline\">"
    case TaglineToSummary =>
      "</div>\n"
      + "  </div>\n"
      + "\n"
      + "  <div class=\"section\">\n"
      + "    <h2 class=\"section-title\">Executive Summary</h2>\n"
      + "    <p class=\"section-content\">"
    case SummaryToAudience =>
      "</p>\n"
      + "  </div>\n"
      + "\n"
      + "  <div class=\"section\">\n"
      + "    <h2 class=\"section-title\">Target Audience</h2>\n"
      + "    <p class=\"section-content\">"
    case AudienceToFeatures =>
      "</p>\n"
      + "  </div>\n"
      + "\n"
      + "  <div class=\"section\">\n"
      + "    <h2 class=\"section-title\">Key Features</h2>\n"
      + "    <ul class=\"features-list\">\n"
      + "      "
    case FeaturesToPrimary =>
      "\n"
      + "    </ul>\n"
      + "  </div>\n"
      + "\n"
      + "  <div class=\"section\">\n"
      + "    <h2 class=\"section-title\">Brand Colors</h2>\n"
      + "    <div class=\"color-scheme\">\n"
      + "      <div class=\"color-box\">\n"
      + "        <div class=\"color-swatch\" style=\"background-color: "
    case PrimarySwatchToLabel =>
      ";\"></div>\n"
      + "        <div class=\"color-label\">Primary<br>"
    case PrimaryToSecondary =>
      "</div>\n"
      + "      </div>\n"
      + "      <div class=\"color-box\">\n"
      + "        <div class=\"color-swatch\" style=\"background-color: "
    case SecondarySwatchToLabel =>
      ";\"></div>\n"
      + "        <div class=\"color-label\">Secondary<br>"
    case SecondaryToAccent =>
      "</div>\n"
      + "      </div>\n"
      + "      <div class=\"color-box\">\n"
      + "        <div class=\"color-swatch\" style=\"background-color: "
    case AccentSwatchToLabel =>
      ";\"></div>\n"
      + "        <div class=\"color-label\">Accent<br>"
    case AccentToFooter =>
      "</div>\n"
      + "      </div>\n"
      + "    </div>\n"
      + "  </div>\n"
      + "\n"
      + "  <div class=\"footer\">\n"
      + "    Generated by Ignitia - AI-Powered Startup Builder<br>\n"
      + "    "
    case PageEnd =>
      "\n"
      + "  </div>\n"
      + "</body>\n"
      + "</html>\n"
  }

  /** The pitch page, hole by hole. */
  const PrintTemplate: seq<Part> := [
      Static(PageHead),
      Hole(NameSlot),
      Static(TitleToHeaderRule),
      Hole(AccentSlot),
      Static(HeaderRuleToLogoColour),
      Hole(AccentSlot),
      Static(LogoColourToTitleColour),
      Hole(AccentSlot),
      Static(TitleColourToCheckColour),
      Hole(AccentSlot),
      Static(CheckColourToLogo),
      Hole(NameSlot),
      Static(LogoToTagline),
      Hole(TaglineSlot),
      Static(TaglineToSummary),
      Hole(DescriptionSlot),
      Static(SummaryToAudience),
      Hole(AudienceSlot),
      Static(AudienceToFeatures),
      Hole(FeaturesSlot),
      Static(FeaturesToPrimary),
      Hole(PrimarySwatchSlot),
      Static(PrimarySwatchToLabel),
      Hole(PrimaryLabelSlot),
      Static(PrimaryToSecondary),
      Hole(SecondarySwatchSlot),
      Static(SecondarySwatchToLabel),
      Hole(SecondaryLabelSlot),
      Static(SecondaryToAccent),
      Hole(AccentSwatchSlot),
      Static(AccentSwatchToLabel),
      Hole(AccentLabelSlot),
      Static(AccentToFooter),
      Hole(DateSlot),
      Static(PageEnd)
  ]


  /** What fills each hole. */
  datatype PrintSlots = PrintSlots(
    name: string, accent: string, tagline: string, description: string, audience: string, features: string,
    primarySwatch: string, secondarySwatch: string, accentSwatch: string,
    primaryLabel: string, secondaryLabel: string, accentLabel: string, date: string)

  function SlotText(s: PrintSlots, h: Slot): string
  {
    match h
    case NameSlot => s.name
    case AccentSlot => s.accent
    case TaglineSlot => s.tagline
    case DescriptionSlot => s.description
    case AudienceSlot => s.audience
    case FeaturesSlot => s.features
    case PrimarySwatchSlot => s.primarySwatch
    case SecondarySwatchSlot => s.secondarySwatch
    case AccentSwatchSlot => s.accentSwatch
    case PrimaryLabelSlot => s.primaryLabel
    case SecondaryLabelSlot => s.secondaryLabel
    case AccentLabelSlot => s.accentLabel
    case DateSlot => s.date
  }

  function Fill(t: seq<Part>, s: PrintSlots): string
  {
    if t == [] then ""
    else (match t[0] case Static(p) => PieceText(p) case Hole(h) => SlotText(s, h)) + Fill(t[1..], s)
  }

  /** Filling a template is filling its pieces one after the other. */
  lemma {:induction false} FillAppend(a: seq<Part>, b: seq<Part>, s: PrintSlots)
    ensures Fill(a + b, s) == Fill(a, s) + Fill(b, s)
  {
    if a != [] {
      FillAppend(a[1..], b, s);
      assert (a + b)[1..] == a[1..] + b;
    } else {
      assert a + b == b;
    }
  }

  /** A hole of the template is filled with its slot's text, between the text of the parts around it. */
  lemma FillPlacesHole(t: seq<Part>, k: nat, s: PrintSlots)
    requires k < |t| && t[k].Hole?
    ensures Fill(t, s) == Fill(t[..k], s) + SlotText(s, t[k].slot) + Fill(t[k + 1..], s)
  {
    assert t == t[..k] + ([t[k]] + t[k + 1..]);
    FillAppend(t[..k], [t[k]] + t[k + 1..], s);
    FillAppend([t[k]], t[k + 1..], s);
    assert Fill([t[k]], s) == SlotText(s, t[k].slot) + Fill([], s);
  }

  /** Each slot's text appears in the page wherever the template has its hole. */
  lemma HoleTextOccurs(t: seq<Part>, k: nat, s: PrintSlots)
    requires k < |t| && t[k].Hole?
    ensures Occurs(Fill(t, s), SlotText(s, t[k].slot))
  {
    FillPlacesHole(t, k, s);
    var pre, x := Fill(t[..k], s), SlotText(s, t[k].slot);
    var page := Fill(t, s);
    Assoc(pre, x, Fill(t[k + 1..], s));
    assert page[|pre|..|pre| + |x|] == x;
    assert StartsAt(page, |pre|, x);
  }

  /** A slot with a hole anywhere in the template has its text in the filled page. */
  lemma HoleShown(t: seq<Part>, h: Slot, s: PrintSlots)
    requires Hole(h) in t
    ensures Occurs(Fill(t, s), SlotText(s, h))
  {
    var k :| 0 <= k < |t| && t[k] == Hole(h);
    HoleTextOccurs(t, k, s);
  }

  /** `<li>${f}</li>` for each feature, joined with nothing. */
  function Items(es: seq<Value>): string
  {
    if es == [] then "" else "<li>" + Display(es[0]) + "</li>" + Items(es[1..])
  }

  /** One item per feature, in order: the list of `a + b` is the list of `a`, then that of `b`. */
  lemma {:induction false} ItemsAppend(a: seq<Value>, b: seq<Value>)
    ensures Items(a + b) == Items(a) + Items(b)
  {
    if a != [] {
      ItemsAppend(a[1..], b);
      assert (a + b)[1..] == a[1..] + b;
      Assoc("<li>" + Display(a[0]) + "</li>", Items(a[1..]), Items(b));
    } else {
      assert a + b == b;
    }
  }

  lemma ItemsSingle(e: Value)
    ensures Items([e]) == "<li>" + Display(e) + "</li>"
  {
    assert Items([e][1..]) == "";
  }

  /** Adding a feature at the end adds exactly its item at the end of the list. */
  lemma FeatureItemsSnoc(fs: seq<Value>, f: Value)
    ensures FeatureItems(Arr(fs + [f])) == FeatureItems(Arr(fs)) + "<li>" + Display(f) + "</li>"
  {
    ItemsAppend(fs, [f]);
    ItemsSingle(f);
  }

  /** `(Array.isArray(kf) ? kf : []).map(...).join("")`: nothing unless the features are an array. */
  function FeatureItems(keyFeatures: Value): (r: string)
    ensures !keyFeatures.Arr? ==> r == ""
    ensures keyFeatures.Arr? ==> r == Items(keyFeatures.elems)
  {
    if keyFeatures.Arr? then Items(keyFeatures.elems) else ""
  }

  /** The hole values for a row: nullish texts become "", a missing colour "#000" in accents, "#fff" in swatches, "" in labels. */
  function Slots(g: Row, formatDate: int -> string): (s: PrintSlots)
    ensures s.name == Display(g.cols.startupName)
    ensures IsNullish(g.cols.tagline) ==> s.tagline == ""
    ensures IsNullish(g.cols.description) ==> s.description == ""
    ensures IsNullish(g.cols.targetAudience) ==> s.audience == ""
    ensures g.cols.tagline.Str? ==> s.tagline == g.cols.tagline.s
    ensures g.cols.description.Str? ==> s.description == g.cols.description.s
    ensures g.cols.targetAudience.Str? ==> s.audience == g.cols.targetAudience.s
    ensures IsNullish(Chain(g.cols.colorScheme, "primary")) ==> s.accent == "#000" && s.primarySwatch == "#fff" && s.primaryLabel == ""
    ensures IsNullish(Chain(g.cols.colorScheme, "secondary")) ==> s.secondarySwatch == "#fff" && s.secondaryLabel == ""
    ensures IsNullish(Chain(g.cols.colorScheme, "accent")) ==> s.accentSwatch == "#fff" && s.accentLabel == ""
    ensures IsNullish(g.cols.colorScheme) ==> s.accent == "#000" && s.primarySwatch == s.secondarySwatch == s.accentSwatch == "#fff"
    ensures Chain(g.cols.colorScheme, "primary").Str? ==> s.accent == s.primarySwatch == s.primaryLabel == Chain(g.cols.colorScheme, "primary").s
    ensures Chain(g.cols.colorScheme, "secondary").Str? ==> s.secondarySwatch == s.secondaryLabel == Chain(g.cols.colorScheme, "secondary").s
    ensures Chain(g.cols.colorScheme, "accent").Str? ==> s.accentSwatch == s.accentLabel == Chain(g.cols.colorScheme, "accent").s
    ensures s.features == FeatureItems(g.cols.keyFeatures)
    ensures s.date == formatDate(g.createdAt)
  {
    var cs := g.cols.colorScheme;
    var primary := Chain(cs, "primary");
    var secondary := Chain(cs, "secondary");
    var accent := Chain(cs, "accent");
    PrintSlots(
      Display(g.cols.startupName),
      DisplayOr(primary, "#000"),
      DisplayOr(g.cols.tagline, ""),
      DisplayOr(g.cols.description, ""),
      DisplayOr(g.cols.targetAudience, ""),
      FeatureItems(g.cols.keyFeatures),
      DisplayOr(primary, "#fff"),
      DisplayOr(secondary, "#fff"),
      DisplayOr(accent, "#fff"),
      DisplayOr(primary, ""),
      DisplayOr(secondary, ""),
      DisplayOr(accent, ""),
      formatDate(g.createdAt))
  }

  /** The page for a generation; `formatDate` stands for `toLocaleDateString("en-US", ...)`. */
  function PrintHtml(g: Row, formatDate: int -> string): string
  {
    Fill(PrintTemplate, Slots(g, formatDate))
  }

  /** The text of every slot appears in the page: the template has a hole for each of them. */
  lemma SlotShown(g: Row, formatDate: int -> string, h: Slot)
    ensures Occurs(PrintHtml(g, formatDate), SlotText(Slots(g, formatDate), h))
  {
    match h
    case NameSlot | AccentSlot | TaglineSlot | DescriptionSlot | AudienceSlot | FeaturesSlot =>
      HoleShown(PrintTemplate, h, Slots(g, formatDate));
    case PrimarySwatchSlot | SecondarySwatchSlot | AccentSwatchSlot =>
      HoleShown(PrintTemplate, h, Slots(g, formatDate));
    case PrimaryLabelSlot | SecondaryLabelSlot | AccentLabelSlot | DateSlot =>
      HoleShown(PrintTemplate, h, Slots(g, formatDate));
  }



}
