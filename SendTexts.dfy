/** Stage 3 of the pipeline (03_send_texts.py): one text per subject, an SMS for the
    control arm and an MMS carrying the event image for the treatment arm, with a 0/1
    success indicator per row. Twilio is an input: for the message composed while
    processing item k, whether `client.messages.create` returned or raised. */
module SendTexts {
  import opened Frames
  import opened Decimal

  datatype Option<T> = None | Some(value: T)

  /** The arguments of one `client.messages.create` call. `to` is whatever the caller
      passes: a Phone cell in `send_messages`, a formatted string in the welcome loop. */
  datatype Message =
    | Sms(body: string, from: string, to: Value)
    | Mms(body: string, from: string, to: Value, media: string)

  /** The outcome of the create call for message `m` made while processing item `k`:
      true when it returned, false when it raised. */
  type Twilio = (nat, Message) -> bool

  /** send_sms (lines 14-25): 1 when the create call returns, 0 when it raises. */
  function SendSms(msg: string, source: string, to: Value, k: nat, twilio: Twilio): (r: int)
    ensures r == 0 || r == 1
    ensures r == 1 <==> twilio(k, Sms(msg, source, to))
  {
    if twilio(k, Sms(msg, source, to)) then 1 else 0
  }

  /** send_mms (lines 27-39): the same, with the media URL attached. */
  function SendMms(msg: string, source: string, to: Value, media: string, k: nat, twilio: Twilio): (r: int)
    ensures r == 0 || r == 1
    ensures r == 1 <==> twilio(k, Mms(msg, source, to, media))
  {
    if twilio(k, Mms(msg, source, to, media)) then 1 else 0
  }

  const LinkScheme: string := "http://"

  /** The body of a subject's text (lines 58 and 61): it starts with the message and
      the http scheme, and ends with the shortlink and a full stop. */
  function Compose(msg: string, link: string): (body: string)
    ensures |body| == |msg| + |LinkScheme| + |link| + 1
    ensures body[..|msg|] == msg && body[|msg|..|msg| + |LinkScheme|] == LinkScheme
    ensures body[|msg| + |LinkScheme|..|body| - 1] == link && body[|body| - 1] == '.'
  {
    msg + LinkScheme + link + "."
  }

  /** The shortlink a body was composed around, given the message it starts with. */
  function LinkIn(msg: string, body: string): string
    requires |msg| + |LinkScheme| < |body|
  {
    body[|msg| + |LinkScheme|..|body| - 1]
  }

  /** The shortlink can be read back from the body: distinct links give distinct texts. */
  lemma LinkInCompose(msg: string, link: string)
    ensures |msg| + |LinkScheme| < |Compose(msg, link)|
    ensures LinkIn(msg, Compose(msg, link)) == link
  {
  }

  predicate IsArm(treatment: Value) {
    treatment == Int(0) || treatment == Int(1)
  }

  /** The send a row calls for (lines 57-64): an SMS for Treatment 0, an MMS with the
      image for Treatment 1, nothing for any other value. Composing the body concatenates
      the Shortlink cell, which raises unless it is a string, hence the requires. */
  function Dispatch(treatment: Value, link: Value, phone: Value, msg: string, source: string, imgUrl: string): (send: Option<Message>)
    requires IsArm(treatment) ==> link.Str?
    ensures send.Some? <==> IsArm(treatment)
    ensures treatment == Int(0) ==> send == Some(Sms(Compose(msg, link.s), source, phone))
    ensures treatment == Int(1) ==> send == Some(Mms(Compose(msg, link.s), source, phone, imgUrl))
  {
    if treatment == Int(0) then Some(Sms(Compose(msg, link.s), source, phone))
    else if treatment == Int(1) then Some(Mms(Compose(msg, link.s), source, phone, imgUrl))
    else None
  }

  /** The success entry of row k (lines 57-64): 0 or 1, and 1 exactly when the row
      calls for a send and that send goes through; a row that calls for none records 0
      without calling Twilio. */
  function RowSuccess(k: nat, treatment: Value, link: Value, phone: Value,
                      msg: string, source: string, imgUrl: string, twilio: Twilio): (r: int)
    requires IsArm(treatment) ==> link.Str?
    ensures r == 0 || r == 1
    ensures var send := Dispatch(treatment, link, phone, msg, source, imgUrl);
            r == 1 <==> send.Some? && twilio(k, send.value)
  {
    match Dispatch(treatment, link, phone, msg, source, imgUrl)
    case None => 0
    case Some(Sms(body, from, to)) => SendSms(body, from, to, k, twilio)
    case Some(Mms(body, from, to, media)) => SendMms(body, from, to, media, k, twilio)
  }

  /** The columns `send_messages` reads have one cell per row, and every row of an arm
      has a string Shortlink. */
  predicate Sendable(phones: seq<Value>, links: seq<Value>, treatments: seq<Value>) {
    && |phones| == |treatments| && |links| == |treatments|
    && forall k :: 0 <= k < |treatments| && IsArm(treatments[k]) ==> links[k].Str?
  }

  /** The Success column (lines 54-66): one entry per row, in row order. */
  function SuccessColumn(phones: seq<Value>, links: seq<Value>, treatments: seq<Value>,
                         msg: string, source: string, imgUrl: string, twilio: Twilio): (col: seq<Value>)
    requires Sendable(phones, links, treatments)
    ensures |col| == |treatments|
    decreases |treatments|
  {
    if treatments == [] then []
    else
      var n := |treatments| - 1;
      SuccessColumn(phones[..n], links[..n], treatments[..n], msg, source, imgUrl, twilio)
        + [Int(RowSuccess(n, treatments[n], links[n], phones[n], msg, source, imgUrl, twilio))]
  }

  /** The create calls `send_messages` makes, with the row each is made for. Twilio's
      answers do not appear: a failed send does not stop the rows after it. */
  function Attempts(phones: seq<Value>, links: seq<Value>, treatments: seq<Value>,
                    msg: string, source: string, imgUrl: string): (sends: seq<(nat, Message)>)
    requires Sendable(phones, links, treatments)
    ensures |sends| <= |treatments|
    decreases |treatments|
  {
    if treatments == [] then []
    else
      var n := |treatments| - 1;
      Attempts(phones[..n], links[..n], treatments[..n], msg, source, imgUrl)
        + RowAttempt(n, treatments[n], links[n], phones[n], msg, source, imgUrl)
  }

  /** The create call row k makes: one, for row k, exactly when the row is in an arm. */
  function RowAttempt(k: nat, treatment: Value, link: Value, phone: Value,
                      msg: string, source: string, imgUrl: string): (sends: seq<(nat, Message)>)
    requires IsArm(treatment) ==> link.Str?
    ensures |sends| <= 1 && (sends != [] <==> IsArm(treatment))
    ensures forall j :: 0 <= j < |sends| ==> sends[j].0 == k
  {
    match Dispatch(treatment, link, phone, msg, source, imgUrl)
    case None => []
    case Some(m) => [(k, m)]
  }

  /** Every entry of the Success column is 0 or 1, and it is 1 exactly when the row
      calls for a send and Twilio accepted it. */
  lemma {:induction false} SuccessEntries(phones: seq<Value>, links: seq<Value>, treatments: seq<Value>,
                                          msg: string, source: string, imgUrl: string, twilio: Twilio)
    requires Sendable(phones, links, treatments)
    ensures var col := SuccessColumn(phones, links, treatments, msg, source, imgUrl, twilio);
            forall k :: 0 <= k < |col| ==> col[k] == Int(0) || col[k] == Int(1)
    ensures var col := SuccessColumn(phones, links, treatments, msg, source, imgUrl, twilio);
            forall k :: 0 <= k < |col| ==>
              (col[k] == Int(1) <==>
                 var send := Dispatch(treatments[k], links[k], phones[k], msg, source, imgUrl);
                 send.Some? && twilio(k, send.value))
    decreases |treatments|
  {
    if treatments != [] {
      var n := |treatments| - 1;
      var col := SuccessColumn(phones, links, treatments, msg, source, imgUrl, twilio);
      var prefix := SuccessColumn(phones[..n], links[..n], treatments[..n], msg, source, imgUrl, twilio);
      SuccessEntries(phones[..n], links[..n], treatments[..n], msg, source, imgUrl, twilio);
      forall k | 0 <= k < n
        ensures col[k] == prefix[k] && phones[..n][k] == phones[k]
        ensures links[..n][k] == links[k] && treatments[..n][k] == treatments[k]
      {
      }
    }
  }

  /** Each create call is the send its row calls for. */
  predicate CallsAsDispatched(sends: seq<(nat, Message)>, phones: seq<Value>, links: seq<Value>, treatments: seq<Value>,
                              msg: string, source: string, imgUrl: string)
    requires Sendable(phones, links, treatments)
  {
    forall j :: 0 <= j < |sends| ==>
      sends[j].0 < |treatments| &&
      Dispatch(treatments[sends[j].0], links[sends[j].0], phones[sends[j].0], msg, source, imgUrl) == Some(sends[j].1)
  }

  /** The create calls go out in increasing row order, so no row is sent twice. */
  predicate InRowOrder(sends: seq<(nat, Message)>) {
    forall i, j :: 0 <= i < j < |sends| ==> sends[i].0 < sends[j].0
  }

  lemma {:induction false} AttemptsAsDispatched(phones: seq<Value>, links: seq<Value>, treatments: seq<Value>,
                                                msg: string, source: string, imgUrl: string)
    requires Sendable(phones, links, treatments)
    ensures CallsAsDispatched(Attempts(phones, links, treatments, msg, source, imgUrl), phones, links, treatments, msg, source, imgUrl)
    decreases |treatments|
  {
    if treatments != [] {
      var n := |treatments| - 1;
      var sends := Attempts(phones, links, treatments, msg, source, imgUrl);
      var before := Attempts(phones[..n], links[..n], treatments[..n], msg, source, imgUrl);
      var last := RowAttempt(n, treatments[n], links[n], phones[n], msg, source, imgUrl);
      AttemptsAsDispatched(phones[..n], links[..n], treatments[..n], msg, source, imgUrl);
      assert sends == before + last;
      var d := Dispatch(treatments[n], links[n], phones[n], msg, source, imgUrl);
      assert last == if d.Some? then [(n, d.value)] else [];
      forall j | 0 <= j < |sends|
        ensures sends[j].0 < |treatments|
        ensures Dispatch(treatments[sends[j].0], links[sends[j].0], phones[sends[j].0], msg, source, imgUrl) == Some(sends[j].1)
      {
        if j < |before| {
          var r := before[j].0;
          assert sends[j] == before[j] && r < n;
          assert phones[..n][r] == phones[r] && links[..n][r] == links[r] && treatments[..n][r] == treatments[r];
        } else {
          assert sends[j] == (n, d.value);
        }
      }
    }
  }

  lemma {:induction false} AttemptsInRowOrder(phones: seq<Value>, links: seq<Value>, treatments: seq<Value>,
                                              msg: string, source: string, imgUrl: string)
    requires Sendable(phones, links, treatments)
    ensures InRowOrder(Attempts(phones, links, treatments, msg, source, imgUrl))
    ensures forall j :: 0 <= j < |Attempts(phones, links, treatments, msg, source, imgUrl)| ==>
              Attempts(phones, links, treatments, msg, source, imgUrl)[j].0 < |treatments|
    decreases |treatments|
  {
    if treatments != [] {
      var n := |treatments| - 1;
      var sends := Attempts(phones, links, treatments, msg, source, imgUrl);
      var before := Attempts(phones[..n], links[..n], treatments[..n], msg, source, imgUrl);
      var last := RowAttempt(n, treatments[n], links[n], phones[n], msg, source, imgUrl);
      AttemptsInRowOrder(phones[..n], links[..n], treatments[..n], msg, source, imgUrl);
      assert sends == before + last;
      forall j | 0 <= j < |sends|
        ensures sends[j].0 < |treatments|
      {
        if j < |before| {
          assert sends[j] == before[j];
        } else {
          assert sends[j] == last[0];
        }
      }
      forall i, j | 0 <= i < j < |sends|
        ensures sends[i].0 < sends[j].0
      {
        assert sends[i] == before[i];
        if j < |before| {
          assert sends[j] == before[j];
        } else {
          assert sends[j] == last[0] && before[i].0 < n;
        }
      }
    }
  }

  /** Row k is among the rows a list of create calls was made for. */
  predicate SentFor(sends: seq<(nat, Message)>, k: nat) {
    exists j :: 0 <= j < |sends| && sends[j].0 == k
  }

  lemma SentForAppend(sends: seq<(nat, Message)>, more: seq<(nat, Message)>, k: nat)
    ensures SentFor(sends + more, k) <==> SentFor(sends, k) || SentFor(more, k)
  {
    var all := sends + more;
    if SentFor(all, k) {
      var j :| 0 <= j < |all| && all[j].0 == k;
      if j >= |sends| {
        assert more[j - |sends|].0 == k;
      }
    }
    if SentFor(more, k) {
      var j :| 0 <= j < |more| && more[j].0 == k;
      assert all[|sends| + j].0 == k;
    }
    if SentFor(sends, k) {
      var j :| 0 <= j < |sends| && sends[j].0 == k;
      assert all[j].0 == k;
    }
  }

  /** Every row of an arm is sent and no other row is: together with the increasing
      row numbers of `Attempts`, each arm row is sent exactly once. */
  lemma {:induction false} AttemptsCoverArms(phones: seq<Value>, links: seq<Value>, treatments: seq<Value>,
                                             msg: string, source: string, imgUrl: string, k: nat)
    requires Sendable(phones, links, treatments) && k < |treatments|
    ensures SentFor(Attempts(phones, links, treatments, msg, source, imgUrl), k) <==> IsArm(treatments[k])
    decreases |treatments|
  {
    var n := |treatments| - 1;
    var before := Attempts(phones[..n], links[..n], treatments[..n], msg, source, imgUrl);
    var last := RowAttempt(n, treatments[n], links[n], phones[n], msg, source, imgUrl);
    assert Attempts(phones, links, treatments, msg, source, imgUrl) == before + last;
    SentForAppend(before, last, k);
    if k < n {
      AttemptsCoverArms(phones[..n], links[..n], treatments[..n], msg, source, imgUrl, k);
      assert treatments[..n][k] == treatments[k];
      assert !SentFor(last, k);
    } else if IsArm(treatments[k]) {
      assert last[0].0 == k;
    } else {
      AttemptsInRowOrder(phones[..n], links[..n], treatments[..n], msg, source, imgUrl);
      assert !SentFor(before, k);
    }
  }

  /** Changing Twilio's answer for one row changes at most that row's entry. */
  lemma FailureIsolated(phones: seq<Value>, links: seq<Value>, treatments: seq<Value>,
                        msg: string, source: string, imgUrl: string, twilio: Twilio, other: Twilio, k: nat)
    requires Sendable(phones, links, treatments)
    requires forall j, m :: j != k ==> twilio(j, m) == other(j, m)
    ensures forall j :: 0 <= j < |treatments| && j != k ==>
              SuccessColumn(phones, links, treatments, msg, source, imgUrl, twilio)[j]
              == SuccessColumn(phones, links, treatments, msg, source, imgUrl, other)[j]
  {
    SuccessEntries(phones, links, treatments, msg, source, imgUrl, twilio);
    SuccessEntries(phones, links, treatments, msg, source, imgUrl, other);
  }

  /** Number of entries of `col` equal to `v`. */
  function Occurrences(col: seq<Value>, v: Value): nat {
    multiset(col)[v]
  }

  /** Each success is a send that went through, so there are at most as many successes
      as sends. */
  lemma {:induction false} SuccessesAtMostAttempts(phones: seq<Value>, links: seq<Value>, treatments: seq<Value>,
                                                   msg: string, source: string, imgUrl: string, twilio: Twilio)
    requires Sendable(phones, links, treatments)
    ensures Occurrences(SuccessColumn(phones, links, treatments, msg, source, imgUrl, twilio), Int(1))
            <= |Attempts(phones, links, treatments, msg, source, imgUrl)|
    decreases |treatments|
  {
    if treatments != [] {
      var n := |treatments| - 1;
      var col := SuccessColumn(phones, links, treatments, msg, source, imgUrl, twilio);
      var prefix := SuccessColumn(phones[..n], links[..n], treatments[..n], msg, source, imgUrl, twilio);
      assert col == prefix + [col[n]];
      assert multiset(col) == multiset(prefix) + multiset{col[n]};
      SuccessesAtMostAttempts(phones[..n], links[..n], treatments[..n], msg, source, imgUrl, twilio);
    }
  }

  /** Processing one more row appends that row's entry and its create call, if any. */
  lemma PrefixStep(phones: seq<Value>, links: seq<Value>, treatments: seq<Value>,
                   msg: string, source: string, imgUrl: string, twilio: Twilio, i: nat)
    requires Sendable(phones, links, treatments) && i < |treatments|
    ensures Sendable(phones[..i], links[..i], treatments[..i])
    ensures Sendable(phones[..i + 1], links[..i + 1], treatments[..i + 1])
    ensures SuccessColumn(phones[..i + 1], links[..i + 1], treatments[..i + 1], msg, source, imgUrl, twilio)
            == SuccessColumn(phones[..i], links[..i], treatments[..i], msg, source, imgUrl, twilio)
               + [Int(RowSuccess(i, treatments[i], links[i], phones[i], msg, source, imgUrl, twilio))]
    ensures Attempts(phones[..i + 1], links[..i + 1], treatments[..i + 1], msg, source, imgUrl)
            == Attempts(phones[..i], links[..i], treatments[..i], msg, source, imgUrl)
               + RowAttempt(i, treatments[i], links[i], phones[i], msg, source, imgUrl)
  {
    assert phones[..i + 1][..i] == phones[..i] && links[..i + 1][..i] == links[..i];
    assert treatments[..i + 1][..i] == treatments[..i];
  }

  /** The body of the loop of `send_messages` for row k (lines 57-64): an SMS for
      Treatment 0, an MMS for Treatment 1, each reporting 1 or 0, and 0 without a send
      for any other value. `attempt` is the create call made, if any. */
  method SendRow(k: nat, treatment: Value, link: Value, phone: Value,
                 msg: string, source: string, imgUrl: string, twilio: Twilio)
    returns (r: int, attempt: seq<(nat, Message)>)
    requires IsArm(treatment) ==> link.Str?
    ensures r == 0 || r == 1
    ensures var send := Dispatch(treatment, link, phone, msg, source, imgUrl);
            && (r == 1 <==> send.Some? && twilio(k, send.value))
            && attempt == if send.Some? then [(k, send.value)] else []
  {
    if treatment == Int(0) {                                         // line 57
      var m := Sms(Compose(msg, link.s), source, phone);
      r := SendSms(m.body, source, phone, k, twilio);                // line 58
      attempt := [(k, m)];
    } else if treatment == Int(1) {                                  // line 60
      var m := Mms(Compose(msg, link.s), source, phone, imgUrl);
      r := SendMms(m.body, source, phone, imgUrl, k, twilio);        // line 61
      attempt := [(k, m)];
    } else {
      r, attempt := 0, [];                                           // line 64
    }
  }

  /** The reads of the loop of `send_messages` all succeed: Treatment is read in every
      row (line 57), Phone and Shortlink only in the rows of an arm (lines 58 and 61),
      where the Shortlink cell is concatenated to the message and must be a string. */
  predicate NoRowRaises(cells: map<string, seq<Value>>, height: nat) {
    && (height > 0 ==> "Treatment" in cells)
    && ("Treatment" in cells ==>
          forall k :: 0 <= k < |cells["Treatment"]| && IsArm(cells["Treatment"][k]) ==>
            "Phone" in cells && "Shortlink" in cells && k < |cells["Shortlink"]| && cells["Shortlink"][k].Str?)
  }

  /** The column `name` as the loop reads it; a frame without that column gives a
      stand-in column that no read reaches when NoRowRaises holds. */
  function ColumnOrBlank(cells: map<string, seq<Value>>, name: string, height: nat): (col: seq<Value>)
    requires name in cells ==> |cells[name]| == height
    ensures |col| == height
  {
    if name in cells then cells[name] else seq(height, _ => Str(""))
  }

  /** When no row raises, the columns as the loop reads them are fit to send. */
  lemma ReadColumnsSendable(cells: map<string, seq<Value>>, height: nat)
    requires forall c :: c in cells ==> |cells[c]| == height
    requires NoRowRaises(cells, height)
    ensures Sendable(ColumnOrBlank(cells, "Phone", height), ColumnOrBlank(cells, "Shortlink", height),
                     ColumnOrBlank(cells, "Treatment", height))
  {
    var links, treatments := ColumnOrBlank(cells, "Shortlink", height), ColumnOrBlank(cells, "Treatment", height);
    forall k | 0 <= k < height && IsArm(treatments[k])
      ensures links[k].Str?
    {
      assert "Treatment" in cells && treatments[k] == cells["Treatment"][k];
    }
  }

  /** The loop of `send_messages` (lines 54-64): one success entry per row and the
      create calls made, both in row order. */
  method SendRows(phones: seq<Value>, links: seq<Value>, treatments: seq<Value>,
                  msg: string, source: string, imgUrl: string, twilio: Twilio)
    returns (success: seq<Value>, sends: seq<(nat, Message)>)
    requires Sendable(phones, links, treatments)
    ensures success == SuccessColumn(phones, links, treatments, msg, source, imgUrl, twilio)
    ensures sends == Attempts(phones, links, treatments, msg, source, imgUrl)
  {
    success, sends := [], [];                                        // line 54
    var i := 0;
    while i < |treatments|                                           // line 56
      invariant 0 <= i <= |treatments|
      invariant success == SuccessColumn(phones[..i], links[..i], treatments[..i], msg, source, imgUrl, twilio)
      invariant sends == Attempts(phones[..i], links[..i], treatments[..i], msg, source, imgUrl)
    {
      PrefixStep(phones, links, treatments, msg, source, imgUrl, twilio, i);
      var r, attempt := SendRow(i, treatments[i], links[i], phones[i], msg, source, imgUrl, twilio);
      success := success + [Int(r)];
      sends := sends + attempt;
      i := i + 1;
    }
    assert phones[..i] == phones && links[..i] == links && treatments[..i] == treatments;
  }

  /** send_messages (lines 41-68). The caller's frame gains the Success column in place
      (every other column untouched) and is returned; `sends` lists the create calls
      made, in row order. */
  method SendMessages(df: Table, msg: string, source: string, imgUrl: string, twilio: Twilio)
    returns (result: Table, sends: seq<(nat, Message)>)
    requires df.Valid() && NoRowRaises(df.cells, df.height)
    modifies df
    ensures result == df && df.Valid() && df.height == old(df.height)
    ensures df.columns == WithColumn(old(df.columns), "Success")
    ensures var phones, links, treatments := ColumnOrBlank(old(df.cells), "Phone", old(df.height)),
              ColumnOrBlank(old(df.cells), "Shortlink", old(df.height)), ColumnOrBlank(old(df.cells), "Treatment", old(df.height));
            && Sendable(phones, links, treatments)
            && df.cells == old(df.cells)["Success" := SuccessColumn(phones, links, treatments, msg, source, imgUrl, twilio)]
            && sends == Attempts(phones, links, treatments, msg, source, imgUrl)
  {
    var n := df.height;
    var phones, links, treatments := ColumnOrBlank(df.cells, "Phone", n),
      ColumnOrBlank(df.cells, "Shortlink", n), ColumnOrBlank(df.cells, "Treatment", n);
    ReadColumnsSendable(df.cells, n);
    var success;
    success, sends := SendRows(phones, links, treatments, msg, source, imgUrl, twilio);
    df.SetColumn("Success", success);                                // line 66
    result := df;                                                    // line 68
  }

  /** The welcome recipient (line 78): "+1" before the string form of the Phone cell. */
  function Recipient(phone: Value): (to: string)
    ensures |to| >= 2 && to[..2] == "+1"
  {
    "+1" + match phone
           case Int(i) => IntString(i)
           case Str(s) => s
  }

  /** An integer id formats to "+1" and its decimal digits, from which it is read back. */
  lemma RecipientRoundTrip(id: nat)
    ensures Recipient(Int(id)) == "+1" + DecimalString(id)
    ensures var digits := Recipient(Int(id))[2..]; Canonical(digits) && ParseDecimal(digits) == id
  {
    var to := Recipient(Int(id));
    assert to[2..] == DecimalString(id);
    ParseDecimalString(id);
  }

  /** The welcome loop (lines 82-85): one SMS of `text` per recipient, in order, and one
      0/1 entry per recipient, 1 exactly when that send went through. */
  method SendWelcome(phones: seq<Value>, text: string, source: string, twilio: Twilio)
    returns (success: seq<int>, sends: seq<Message>)
    ensures |success| == |phones| && |sends| == |phones|
    ensures forall k :: 0 <= k < |phones| ==> sends[k] == Sms(text, source, Str(Recipient(phones[k])))
    ensures forall k :: 0 <= k < |phones| ==> (success[k] == 0 || success[k] == 1)
    ensures forall k :: 0 <= k < |phones| ==> (success[k] == 1 <==> twilio(k, sends[k]))
  {
    success, sends := [], [];
    for k := 0 to |phones|
      invariant |success| == k && |sends| == k
      invariant forall j :: 0 <= j < k ==> sends[j] == Sms(text, source, Str(Recipient(phones[j])))
      invariant forall j :: 0 <= j < k ==> (success[j] == 0 || success[j] == 1)
      invariant forall j :: 0 <= j < k ==> (success[j] == 1 <==> twilio(j, sends[j]))
    {
      var to := Str(Recipient(phones[k]));                           // line 78
      var r := SendSms(text, source, to, k, twilio);                 // line 84
      sends := sends + [Sms(text, source, to)];
      success := success + [r];                                      // line 85
    }
  }
}
