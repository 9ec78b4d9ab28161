/**
 * The rows of the `generations` table and the JSON responses the route handlers send.
 */
module Records {
  import opened Json

  /** The eight content columns of a generation, each holding the JSON value stored in it. */
  datatype Columns = Columns(
    ideaInput: Value,        // idea_input
    startupName: Value,      // startup_name
    tagline: Value,          // tagline
    description: Value,      // description
    targetAudience: Value,   // target_audience
    keyFeatures: Value,      // key_features
    colorScheme: Value,      // color_scheme
    landingPageHtml: Value)  // landing_page_html

  /** A stored generation: the database supplies `id` and `created_at`, the handler the owner and the columns. */
  datatype Row = Row(id: string, userId: string, createdAt: int, cols: Columns)

  /** An HTTP response: status and JSON body. */
  datatype Response = Response(status: nat, body: Value)

  /** `{ error: message }`. */
  function ErrorBody(message: string): (v: Value)
    ensures v.Obj? && v.fields.Keys == {"error"} && v.fields["error"] == Str(message)
  {
    Obj(map["error" := Str(message)])
  }

  /** A row as the table API returns it, under its snake_case column names. */
  function RowJson(r: Row): (v: Value)
    ensures v.Obj? && v.fields.Keys == {
      "id", "user_id", "created_at", "idea_input", "startup_name", "tagline", "description",
      "target_audience", "key_features", "color_scheme", "landing_page_html"}
    ensures v.fields["id"] == Str(r.id) && v.fields["user_id"] == Str(r.userId) && v.fields["created_at"] == Num(r.createdAt)
    ensures v.fields["idea_input"] == r.cols.ideaInput && v.fields["startup_name"] == r.cols.startupName
    ensures v.fields["tagline"] == r.cols.tagline && v.fields["description"] == r.cols.description
    ensures v.fields["target_audience"] == r.cols.targetAudience && v.fields["key_features"] == r.cols.keyFeatures
    ensures v.fields["color_scheme"] == r.cols.colorScheme && v.fields["landing_page_html"] == r.cols.landingPageHtml
  {
    Obj(map[
      "id" := Str(r.id),
      "user_id" := Str(r.userId),
      "created_at" := Num(r.createdAt),
      "idea_input" := r.cols.ideaInput,
      "startup_name" := r.cols.startupName,
      "tagline" := r.cols.tagline,
      "description" := r.cols.description,
      "target_audience" := r.cols.targetAudience,
      "key_features" := r.cols.keyFeatures,
      "color_scheme" := r.cols.colorScheme,
      "landing_page_html" := r.cols.landingPageHtml])
  }
}
