/** Stage 2 of the pipeline (02_assign_shortlinks.py): every subject gets a fresh
    tracking shortlink for the same campaign URL, a treatment draw and the experiment
    label. The link-shortening service and numpy's binomial draws are inputs: the
    service is the reply to the k-th create call of the run given its payload, and the
    draws are the k-th Bernoulli outcome. */
module AssignShortlinks {
  import opened Frames

  const ShortUrlDomain: string := "go.teatexts.me"
  /** `requests.codes.ok`. */
  const StatusOk: int := 200
  const ErrorSentinel: string := "Error"
  const AssignmentColumns: seq<string> := ["Phone", "Shortlink", "Treatment", "Experiment"]

  lemma AssignmentColumnsDistinct()
    ensures forall i, j :: 0 <= i < j < |AssignmentColumns| ==> AssignmentColumns[i] != AssignmentColumns[j]
  {
    assert "Phone"[0] == 'P' && "Shortlink"[0] == 'S' && "Treatment"[0] == 'T' && "Experiment"[0] == 'E';
    assert "Shortlink"[1] == 'h' && "Treatment"[1] == 'r';
  }

  /** The JSON body of the create-link call (lines 26-32). */
  datatype LinkRequest = LinkRequest(destination: string, domain: string)

  /** What generate_shortlink reads from the reply: the status code and, on success,
      the `shortUrl` field of the JSON body. */
  datatype HttpReply = HttpReply(status: int, shortUrl: string)

  function LinkRequestFor(url: string): (req: LinkRequest)
    ensures req.destination == url && req.domain == ShortUrlDomain
  {
    LinkRequest(url, ShortUrlDomain)
  }

  /** Lines 46-50: the body's shortUrl on status 200, the literal "Error" otherwise. */
  function ShortlinkOf(reply: HttpReply): (link: string)
    ensures reply.status == StatusOk ==> link == reply.shortUrl
    ensures reply.status != StatusOk ==> link == ErrorSentinel
  {
    if reply.status == StatusOk then reply.shortUrl else ErrorSentinel
  }

  /** The sentinel is an ordinary string: a successful reply whose shortUrl is "Error"
      yields the same value as a failed call, so the column alone cannot tell them apart. */
  lemma SentinelIsAmbiguous()
    ensures exists ok: HttpReply, failed: HttpReply ::
              ok.status == StatusOk && failed.status != StatusOk && ShortlinkOf(ok) == ShortlinkOf(failed)
  {
    var ok, failed := HttpReply(StatusOk, ErrorSentinel), HttpReply(500, "");
    assert ShortlinkOf(ok) == ShortlinkOf(failed);
  }

  /** generate_shortlink(url) as the k-th call of a run (lines 11-50): posts the payload
      for `url` on the campaign domain and reads the shortlink from the reply. Returns the
      payload it posted beside the link. */
  method GenerateShortlink(url: string, k: nat, service: (nat, LinkRequest) -> HttpReply)
    returns (link: string, request: LinkRequest)
    ensures request.destination == url && request.domain == ShortUrlDomain
    ensures link == ShortlinkOf(service(k, request))
  {
    request := LinkRequest(url, ShortUrlDomain);                  // lines 26-32
    var r := service(k, request);                                 // line 41
    if r.status == StatusOk {                                     // line 46
      link := r.shortUrl;
    } else {
      link := ErrorSentinel;
    }
  }

  /** Reference column for line 67: row k holds the shortlink read from the reply to
      the k-th create call, whose payload is the one for `url`. */
  function ShortlinkColumn(url: string, n: nat, service: (nat, LinkRequest) -> HttpReply): (col: seq<Value>)
    ensures |col| == n
    ensures forall k :: 0 <= k < n ==> col[k] == Str(ShortlinkOf(service(k, LinkRequestFor(url))))
  {
    if n == 0 then []
    else ShortlinkColumn(url, n - 1, service) + [Str(ShortlinkOf(service(n - 1, LinkRequestFor(url))))]
  }

  /** Line 68: `np.random.binomial(1, p, n)`, the k-th draw deciding row k. Every value
      is 0 or 1, and 1 exactly where the draw succeeded. */
  function TreatmentColumn(n: nat, draw: nat -> bool): (col: seq<Value>)
    ensures |col| == n
    ensures forall k :: 0 <= k < n ==> col[k] == Int(0) || col[k] == Int(1)
    ensures forall k :: 0 <= k < n ==> (col[k] == Int(1) <==> draw(k))
  {
    seq(n, k requires 0 <= k < n => Int(if draw(k) then 1 else 0))
  }

  /** Line 69: the scalar label broadcast to every row. */
  function ExperimentColumn(n: nat, experiment: string): (col: seq<Value>)
    ensures |col| == n
    ensures forall k :: 0 <= k < n ==> col[k] == Str(experiment)
  {
    seq(n, k requires 0 <= k < n => Str(experiment))
  }

  /** Adding the three assignment columns leaves the Phone column as it was, present
      exactly when it was before, and puts the links under Shortlink. */
  lemma AssignmentKeepsPhone(cells: map<string, seq<Value>>, links: seq<Value>, treatments: seq<Value>, labels: seq<Value>)
    ensures var m := cells["Shortlink" := links]["Treatment" := treatments]["Experiment" := labels];
            && ("Phone" in m <==> "Phone" in cells)
            && ("Phone" in cells ==> m["Phone"] == cells["Phone"])
            && m["Shortlink"] == links
  {
    assert "Phone"[0] == 'P' && "Shortlink"[0] == 'S' && "Treatment"[0] == 'T' && "Experiment"[0] == 'E';
  }

  /** assign_shortlinks (lines 52-72). Line 67 makes one create call per row, in row
      order, and `requests` lists the payloads those calls posted: row k of Shortlink
      holds what the reply to the k-th payload gave. The caller's frame gains the
      Shortlink, Treatment and Experiment columns in place, and keeps them even when
      line 70 then fails for want of a Phone column (the null result). Otherwise the
      result is a new frame with exactly the columns Phone, Shortlink, Treatment,
      Experiment, the same rows, and the Phone column of the input. */
  method AssignShortlinks(df: Table, url: string, experiment: string,
                          service: (nat, LinkRequest) -> HttpReply, draw: nat -> bool)
    returns (result: Table?, requests: seq<LinkRequest>)
    requires df.Valid()
    modifies df
    ensures df.Valid() && df.height == old(df.height)
    ensures df.columns == WithColumn(WithColumn(WithColumn(old(df.columns), "Shortlink"), "Treatment"), "Experiment")
    ensures df.cells == old(df.cells)["Shortlink" := ShortlinkColumn(url, old(df.height), service)]
                                     ["Treatment" := TreatmentColumn(old(df.height), draw)]
                                     ["Experiment" := ExperimentColumn(old(df.height), experiment)]
    ensures |requests| == old(df.height)
    ensures forall k :: 0 <= k < |requests| ==>
              && requests[k].destination == url && requests[k].domain == ShortUrlDomain
              && df.cells["Shortlink"][k] == Str(ShortlinkOf(service(k, requests[k])))
    ensures result != null <==> "Phone" in old(df.cells)
    ensures result != null ==>
              && fresh(result) && result.Valid()
              && result.columns == AssignmentColumns && result.height == old(df.height)
              && (forall c :: c in AssignmentColumns ==> c in result.cells && result.cells[c] == df.cells[c])
              && result.cells["Phone"] == old(df.cells["Phone"])
  {
    var n := df.height;                                            // line 65
    var links: seq<Value> := [];
    requests := [];
    for k := 0 to n                                                // line 67
      modifies {}
      invariant |requests| == k
      invariant links == ShortlinkColumn(url, k, service)
      invariant forall j :: 0 <= j < k ==>
                  requests[j] == LinkRequestFor(url) && links[j] == Str(ShortlinkOf(service(j, requests[j])))
    {
      var link, request := GenerateShortlink(url, k, service);
      links := links + [Str(link)];
      requests := requests + [request];
    }
    var treatments, labels := TreatmentColumn(n, draw), ExperimentColumn(n, experiment);
    AssignmentKeepsPhone(df.cells, links, treatments, labels);
    df.SetColumn("Shortlink", links);
    df.SetColumn("Treatment", treatments);                         // line 68
    df.SetColumn("Experiment", labels);                            // line 69
    if "Phone" in df.cells {
      AssignmentColumnsDistinct();
      result := df.Select(AssignmentColumns);                      // line 70
      assert AssignmentColumns[0] == "Phone";
    } else {
      result := null;                                              // KeyError at line 70
    }
  }
}
