/**
 * The dashboard's list state (components/dashboard-content.tsx): the generations shown, the one
 * selected for the preview dialog, whether that dialog is open, and the HTML download of a
 * generation's landing page.
 */
module Dashboard {
  import opened Wrappers
  import opened Text
  import opened Json
  import opened Records

  /** `generations.filter((g) => g.id !== id)`. */
  function WithoutId(gs: seq<Row>, id: string): (r: seq<Row>)
    ensures |r| <= |gs|
    ensures forall k :: 0 <= k < |r| ==> r[k].id != id
  {
    if gs == [] then []
    else if gs[0].id != id then [gs[0]] + WithoutId(gs[1..], id)
    else WithoutId(gs[1..], id)
  }

  /** A generation survives the filter exactly when it was listed and has another id. */
  lemma {:induction false} WithoutIdMembers(gs: seq<Row>, id: string, g: Row)
    ensures g in WithoutId(gs, id) <==> g in gs && g.id != id
  {
    if gs != [] {
      WithoutIdMembers(gs[1..], id, g);
      assert gs == [gs[0]] + gs[1..];
    }
  }

  /** Filtering a list is filtering its two halves: the kept generations stay in their relative order. */
  lemma {:induction false} WithoutIdAppend(a: seq<Row>, b: seq<Row>, id: string)
    ensures WithoutId(a + b, id) == WithoutId(a, id) + WithoutId(b, id)
  {
    if a != [] {
      assert (a + b)[1..] == a[1..] + b;
      WithoutIdAppend(a[1..], b, id);
    } else {
      assert a + b == b;
    }
  }

  /** A list without that id is left as it is. */
  lemma {:induction false} WithoutAbsentId(gs: seq<Row>, id: string)
    requires forall k :: 0 <= k < |gs| ==> gs[k].id != id
    ensures WithoutId(gs, id) == gs
  {
    if gs != [] {
      WithoutAbsentId(gs[1..], id);
      assert gs == [gs[0]] + gs[1..];
    }
  }

  /** Deleting twice is deleting once. */
  lemma WithoutIdIdempotent(gs: seq<Row>, id: string)
    ensures WithoutId(WithoutId(gs, id), id) == WithoutId(gs, id)
  {
    WithoutAbsentId(WithoutId(gs, id), id);
  }

  /** What the DELETE request came back with: a status, or a thrown request. */
  datatype Reply = Status(code: nat) | NetworkError

  predicate ResponseOk(reply: Reply)
  {
    reply.Status? && 200 <= reply.code <= 299
  }

  /** The component's state. */
  class DashboardState {
    var generations: seq<Row>
    var selected: Option<Row>
    var dialogOpen: bool

    constructor (initialGenerations: seq<Row>)
      ensures generations == initialGenerations && selected == None && !dialogOpen
    {
      generations := initialGenerations;
      selected := None;
      dialogOpen := false;
    }

    /** `handleView`: select the generation and open the dialog. */
    method View(g: Row)
      modifies this
      ensures selected == Some(g) && dialogOpen
      ensures generations == old(generations)
    {
      selected := Some(g);
      dialogOpen := true;
    }

    /**
     * `handleDelete`. `confirmed` is the answer to the confirm dialog and `reply` what the DELETE
     * request produced; `sent` says whether the request was made and `alerted` whether the
     * failure alert was shown.
     */
    method Delete(id: string, confirmed: bool, reply: Reply) returns (sent: bool, alerted: bool)
      modifies this
      ensures sent == confirmed
      ensures alerted <==> confirmed && !ResponseOk(reply)
      ensures generations == if confirmed && ResponseOk(reply) then WithoutId(old(generations), id) else old(generations)
      ensures selected == old(selected) && dialogOpen == old(dialogOpen)
    {
      if !confirmed {
        return false, false;
      }
      sent := true;
      if !ResponseOk(reply) {
        alerted := true;
      } else {
        generations := WithoutId(generations, id);
        alerted := false;
      }
    }
  }

  /** The file `handleExportHTML` downloads. */
  datatype Download = Download(filename: string, content: string, mimeType: string)

  /**
   * `handleExportHTML`: `startup_name.replace(...)` throws unless the name is a string, and the
   * Blob holds `landing_page_html` converted to text.
   */
  function ExportHtml(g: Row): (r: Option<Download>)
    ensures r.None? <==> !g.cols.startupName.Str?
    ensures r.Some? ==> r.value.mimeType == "text/html" && r.value.content == Display(g.cols.landingPageHtml)
    ensures r.Some? && g.cols.landingPageHtml.Str? ==> r.value.content == g.cols.landingPageHtml.s
    ensures r.Some? ==> r.value.filename == LandingFilename(g.cols.startupName.s)
  {
    match g.cols.startupName
    case Str(name) => Some(Download(LandingFilename(name), Display(g.cols.landingPageHtml), "text/html"))
    case _ => None
  }

  function LandingFilename(name: string): string
  {
    Slug(name) + "-landing-page.html"
  }

  /** The file name has no whitespace, slugging it again changes nothing, and it keeps the name's non-space text. */
  lemma LandingFilenameClean(name: string)
    ensures NoSpace(LandingFilename(name))
    ensures Slug(LandingFilename(name)) == LandingFilename(name)
    ensures NoSpace(name) ==> LandingFilename(name) == name + "-landing-page.html"
  {
    SlugWithSuffix(name, "-landing-page.html");
    if NoSpace(name) {
      SlugOfNoSpace(name);
    }
  }
}
