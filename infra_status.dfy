/**
 * The infrastructure page's status classification and its tab selector.
 * Both switches lower-case the status first and then sort it into one of
 * four classes; the colour and the icon are two separate switches over the
 * same cases.
 */
module InfraStatus {
  import opened JsStrings

  /** The icon drawn beside a status. */
  datatype Icon = CheckCircle | XCircle | Clock | AlertTriangle

  const Green := "text-green-500"
  const Red := "text-red-500"
  const Yellow := "text-yellow-500"
  const Gray := "text-gray-500"

  /** `getStatusColor`: the text colour of a build or container status. */
  function StatusColor(status: string): (r: string)
    ensures r == Green <==> ToLower(status) == "success" || ToLower(status) == "running"
    ensures r == Red <==> ToLower(status) == "failure" || ToLower(status) == "failed"
    ensures r == Yellow <==> ToLower(status) == "building" || ToLower(status) == "pending"
    ensures r == Green || r == Red || r == Yellow || r == Gray
  {
    var s := ToLower(status);
    if s == "success" || s == "running" then Green
    else if s == "failure" || s == "failed" then Red
    else if s == "building" || s == "pending" then Yellow
    else Gray
  }

  /** `getStatusIcon`: the icon of a build or container status. */
  function StatusIcon(status: string): (r: Icon)
    ensures r == CheckCircle <==> ToLower(status) == "success" || ToLower(status) == "running"
    ensures r == XCircle <==> ToLower(status) == "failure" || ToLower(status) == "failed"
    ensures r == Clock <==> ToLower(status) == "building" || ToLower(status) == "pending"
  {
    var s := ToLower(status);
    if s == "success" || s == "running" then CheckCircle
    else if s == "failure" || s == "failed" then XCircle
    else if s == "building" || s == "pending" then Clock
    else AlertTriangle
  }

  /** The icon that goes with each colour. */
  function IconOfColor(color: string): Icon
  {
    if color == Green then CheckCircle
    else if color == Red then XCircle
    else if color == Yellow then Clock
    else AlertTriangle
  }

  /** Colour and icon partition the statuses alike: each status's icon is the one that goes with its colour. */
  lemma IconFollowsColor(status: string)
    ensures StatusIcon(status) == IconOfColor(StatusColor(status))
  {
  }

  /** Two statuses share a colour exactly when they share an icon. */
  lemma SameColorIffSameIcon(s: string, t: string)
    ensures StatusColor(s) == StatusColor(t) <==> StatusIcon(s) == StatusIcon(t)
  {
  }

  /** Classification ignores case: a status and its lower-cased form are classified alike. */
  lemma StatusCaseInsensitive(status: string)
    ensures StatusColor(ToLower(status)) == StatusColor(status)
    ensures StatusIcon(ToLower(status)) == StatusIcon(status)
  {
    ToLowerIdempotent(status);
  }

  /** The upper-case build statuses and the lower-case container statuses of the page are classified by meaning. */
  lemma PageStatuses()
    ensures StatusColor("SUCCESS") == Green && StatusIcon("SUCCESS") == CheckCircle
    ensures StatusColor("FAILURE") == Red && StatusIcon("FAILURE") == XCircle
    ensures StatusColor("running") == Green && StatusIcon("running") == CheckCircle
  {
    SuccessIsGreen();
    FailureIsRed();
    RunningIsGreen();
  }

  /** The build status `SUCCESS` is green with a check mark. */
  lemma SuccessIsGreen()
    ensures StatusColor("SUCCESS") == Green && StatusIcon("SUCCESS") == CheckCircle
  {
    LowerOf("SUCCESS", "success");
  }

  /** The build status `FAILURE` is red with a cross. */
  lemma FailureIsRed()
    ensures StatusColor("FAILURE") == Red && StatusIcon("FAILURE") == XCircle
  {
    LowerOf("FAILURE", "failure");
  }

  /** The container status `running` is green with a check mark. */
  lemma RunningIsGreen()
    ensures StatusColor("running") == Green && StatusIcon("running") == CheckCircle
  {
    LowerOf("running", "running");
  }

  lemma LowerOf(s: string, t: string)
    requires |s| == |t| && forall i :: 0 <= i < |s| ==> LowerChar(s[i]) == t[i]
    ensures ToLower(s) == t
  {
  }

  /** The ids of the page's tabs, in the order they are shown. */
  const TabIds: seq<string> := ["overview", "jenkins", "docker", "monitoring", "metrics"]

  /** The page shows five tabs, `overview` first, with distinct ids. */
  lemma TabIdsListed()
    ensures |TabIds| == 5 && TabIds[0] == "overview"
    ensures forall i, j :: 0 <= i < j < |TabIds| ==> TabIds[i] != TabIds[j]
  {
  }

  /** The page's tab state. */
  class InfraDashboard {
    var activeTab: string

    constructor ()
      ensures activeTab == "overview" && activeTab == TabIds[0]
    {
      activeTab := "overview";
    }

    /** A tab button's `onClick`: the tab becomes active whatever was active before. */
    method SelectTab(id: string)
      modifies this`activeTab
      ensures activeTab == id
    {
      activeTab := id;
    }
  }
}
