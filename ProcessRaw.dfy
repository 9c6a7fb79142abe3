/** Stage 1 of the pipeline (01_process_raw.py): survey responses become one row per
    subject, keyed by the integer value of the cleaned phone number. The script works on
    whole columns (a regex replacement, an anchored replacement, a boolean-mask filter,
    an integer cast and a duplicate mask); each step is a function on the rows below,
    and ProcessResponses runs them in the script's order. */
module ProcessRaw {
  import opened Decimal
  import opened Masks

  /** A Google Forms response once the eight columns carry the names of line 15. */
  datatype Submission = Submission(
    time: string, phone: string, graduation: string, pronouns: string,
    college: string, areaOfStudy: string, numberOfTeas: string, consent: string)

  /** A response without Time and Consent: Phone, Graduation, Pronouns, College,
      Area of study, Number of teas. The Phone column has type P: a string until the
      integer cast, the subject id afterwards. */
  datatype Response<P> = Response(
    phone: P, graduation: string, pronouns: string, college: string,
    areaOfStudy: string, numberOfTeas: string)

  type Subject = Response<nat>

  /** The five demographic fields of `r` are those of `s`. */
  predicate SameDetails<P>(r: Response<P>, s: Submission) {
    && r.graduation == s.graduation && r.pronouns == s.pronouns && r.college == s.college
    && r.areaOfStudy == s.areaOfStudy && r.numberOfTeas == s.numberOfTeas
  }

  /** Two rows agree on the five demographic fields, whatever their Phone. */
  predicate SameSurvey<P, Q>(r: Response<P>, s: Response<Q>) {
    && r.graduation == s.graduation && r.pronouns == s.pronouns && r.college == s.college
    && r.areaOfStudy == s.areaOfStudy && r.numberOfTeas == s.numberOfTeas
  }

  /** Lines 15-18: rows keep Phone and the demographic fields, in order; Time and
      Consent are gone. */
  function DropTimeAndConsent(subs: seq<Submission>): (r: seq<Response<string>>)
    ensures |r| == |subs|
    ensures forall i :: 0 <= i < |subs| ==> r[i].phone == subs[i].phone && SameDetails(r[i], subs[i])
  {
    seq(|subs|, i requires 0 <= i < |subs| =>
      Response(subs[i].phone, subs[i].graduation, subs[i].pronouns, subs[i].college,
               subs[i].areaOfStudy, subs[i].numberOfTeas))
  }

  // ----- the phone value -----

  /** Line 21: `str.replace('[^\d]+', '', regex=True)` deletes every non-digit. */
  function StripNonDigits(s: string): (r: string)
    ensures AllDigits(r) && IsSubsequence(r, s)
  {
    FilterSatisfies(s, IsDigit);
    WhereSubsequence(s, Mask(s, IsDigit));
    var r := Filter(s, IsDigit);
    assert forall i :: 0 <= i < |r| ==> r[i] in r;
    r
  }

  /** The digit strip leaves exactly the digits of the input, each as often as it
      occurs there, in their original order. */
  lemma StripNonDigitsKeepsDigits(s: string)
    ensures AllDigits(StripNonDigits(s))
    ensures IsSubsequence(StripNonDigits(s), s)
    ensures forall c :: multiset(StripNonDigits(s))[c] == if IsDigit(c) then multiset(s)[c] else 0
  {
    var r := StripNonDigits(s);
    forall c
      ensures multiset(r)[c] == if IsDigit(c) then multiset(s)[c] else 0
    {
      FilterCounts(s, IsDigit, c);
    }
  }

  lemma StripNonDigitsIdempotent(s: string)
    ensures StripNonDigits(StripNonDigits(s)) == StripNonDigits(s)
  {
    FilterIdempotent(s, IsDigit);
  }

  lemma StripNonDigitsConcat(a: string, b: string)
    ensures StripNonDigits(a + b) == StripNonDigits(a) + StripNonDigits(b)
  {
    FilterConcat(a, b, IsDigit);
  }

  lemma StripNonDigitsOfDigits(s: string)
    requires AllDigits(s)
    ensures StripNonDigits(s) == s
  {
    FilterAllSatisfy(s, IsDigit);
  }

  predicate NoDigits(s: string) {
    forall i :: 0 <= i < |s| ==> !IsDigit(s[i])
  }

  /** A field with no digit at all (the survey's "anise") cleans to the empty string. */
  lemma StripNonDigitsOfText(s: string)
    requires NoDigits(s)
    ensures StripNonDigits(s) == ""
  {
    FilterNoneSatisfy(s, IsDigit);
  }

  /** Line 24 read as the anchored pattern `^1`: one leading '1' goes, and only then. */
  function StripLeadingOne(s: string): (r: string)
    ensures s == r || s == "1" + r
    ensures r != s <==> |s| > 0 && s[0] == '1'
  {
    if |s| > 0 && s[0] == '1' then s[1..] else s
  }

  /** Unlike the digit strip, the leading-'1' strip is not idempotent. */
  lemma StripLeadingOneNotIdempotent()
    ensures exists s :: StripLeadingOne(StripLeadingOne(s)) != StripLeadingOne(s)
  {
    var s := "11";
    assert StripLeadingOne(s) == "1";
    assert StripLeadingOne("1") == "";
  }

  /** Line 24 as written under pandas 2.0 and later, where `str.replace` defaults to
      `regex=False`: every literal occurrence of the two characters "^1" is deleted,
      left to right, which leaves any string without a '^' unchanged. */
  function RemoveCaretOne(s: string): (r: string)
    ensures (forall i :: 0 <= i < |s| ==> s[i] != '^') ==> r == s
    decreases |s|
  {
    if |s| < 2 then s
    else if s[0] == '^' && s[1] == '1' then RemoveCaretOne(s[2..])
    else [s[0]] + RemoveCaretOne(s[1..])
  }

  /** Lines 21 and 24: the cleaned phone field, a string of digits. */
  function CleanPhone(phone: string): (r: string)
    ensures AllDigits(r)
  {
    StripNonDigitsKeepsDigits(phone);
    StripLeadingOne(StripNonDigits(phone))
  }

  /** Lines 21 and 24 with the literal replacement of pandas 2.0 and later. */
  function CleanPhoneAsWritten(phone: string): (r: string)
    ensures AllDigits(r) && r == StripNonDigits(phone)
  {
    StripNonDigitsKeepsDigits(phone);
    RemoveCaretOne(StripNonDigits(phone))
  }

  // ----- the rows -----

  /** Line 21 applied to the Phone column. */
  function CleanDigitsColumn(rows: seq<Response<string>>): (r: seq<Response<string>>)
    ensures |r| == |rows|
    ensures forall i :: 0 <= i < |rows| ==>
              AllDigits(r[i].phone) && IsSubsequence(r[i].phone, rows[i].phone) && SameSurvey(r[i], rows[i])
  {
    seq(|rows|, i requires 0 <= i < |rows| => rows[i].(phone := StripNonDigits(rows[i].phone)))
  }

  /** Line 24 applied to the Phone column. */
  function StripCountryCodeColumn(rows: seq<Response<string>>): (r: seq<Response<string>>)
    ensures |r| == |rows|
    ensures forall i :: 0 <= i < |rows| ==>
              (rows[i].phone == r[i].phone || rows[i].phone == "1" + r[i].phone) && SameSurvey(r[i], rows[i])
    ensures forall i :: 0 <= i < |rows| ==>
              (r[i].phone != rows[i].phone <==> |rows[i].phone| > 0 && rows[i].phone[0] == '1')
  {
    seq(|rows|, i requires 0 <= i < |rows| => rows[i].(phone := StripLeadingOne(rows[i].phone)))
  }

  predicate HasPhone(r: Response<string>) {
    r.phone != ""
  }

  /** Line 27: `responses[responses['Phone'] != '']`. */
  function DropEmptyPhones(rows: seq<Response<string>>): (kept: seq<Response<string>>)
    ensures IsSubsequence(kept, rows)
    ensures forall x :: multiset(kept)[x] == if HasPhone(x) then multiset(rows)[x] else 0
  {
    WhereSubsequence(rows, Mask(rows, HasPhone));
    FilterCountsAll(rows, HasPhone);
    Filter(rows, HasPhone)
  }

  predicate AllIds(rows: seq<Response<string>>) {
    forall i :: 0 <= i < |rows| ==> rows[i].phone != "" && AllDigits(rows[i].phone)
  }

  function WithId(r: Response<string>): Subject
    requires r.phone != "" && AllDigits(r.phone)
  {
    Response(ParseDecimal(r.phone), r.graduation, r.pronouns, r.college, r.areaOfStudy, r.numberOfTeas)
  }

  /** Line 30: `astype('int64')` on the Phone column; every phone must be a non-empty
      string of digits, which the earlier steps guarantee. */
  function ToIds(rows: seq<Response<string>>): (ids: seq<Subject>)
    requires AllIds(rows)
    ensures |ids| == |rows|
    ensures forall i :: 0 <= i < |rows| ==>
              ids[i].phone == ParseDecimal(rows[i].phone) && SameSurvey(ids[i], rows[i])
  {
    Cast(rows)
  }

  /** The cast itself, row by row. */
  function Cast(rows: seq<Response<string>>): seq<Subject>
    requires AllIds(rows)
  {
    seq(|rows|, i requires 0 <= i < |rows| && rows[i].phone != "" && AllDigits(rows[i].phone) => WithId(rows[i]))
  }

  function PhonesOf(rows: seq<Subject>): set<nat> {
    set r | r in rows :: r.phone
  }

  /** `~responses.duplicated('Phone')`: true for a row whose Phone no earlier row has. */
  function FirstSeen(rows: seq<Subject>): (keep: seq<bool>)
    ensures |keep| == |rows|
  {
    seq(|rows|, i requires 0 <= i < |rows| => rows[i].phone !in PhonesOf(rows[..i]))
  }

  /** Line 38: `responses[~responses.duplicated('Phone')]`. */
  function DropDuplicates(rows: seq<Subject>): (r: seq<Subject>)
    ensures IsSubsequence(r, rows)
  {
    WhereSubsequence(rows, FirstSeen(rows));
    Where(rows, FirstSeen(rows))
  }

  predicate UniquePhones(rows: seq<Subject>) {
    forall i, j :: 0 <= i < j < |rows| ==> rows[i].phone != rows[j].phone
  }

  predicate IsFirstWithPhone(rows: seq<Subject>, i: nat)
    requires i < |rows|
  {
    forall j :: 0 <= j < i ==> rows[j].phone != rows[i].phone
  }

  // ----- the survivors, defined row by row -----

  /** A submission survives the empty-phone filter. */
  predicate Eligible(s: Submission) {
    CleanPhone(s.phone) != ""
  }

  /** The subject row a surviving submission becomes. */
  function Cleaned(s: Submission): (r: Subject)
    requires Eligible(s)
    ensures SameDetails(r, s)
  {
    Response(ParseDecimal(CleanPhone(s.phone)), s.graduation, s.pronouns, s.college,
             s.areaOfStudy, s.numberOfTeas)
  }

  /** Reference definition of lines 15-30: the submissions that keep a phone, cleaned,
      in their original order. Every row comes from an eligible submission and every
      eligible submission is represented. */
  function Candidates(subs: seq<Submission>): (r: seq<Subject>)
    ensures |r| <= |subs|
    decreases |subs|
  {
    if subs == [] then []
    else
      var n := |subs| - 1;
      Candidates(subs[..n]) + (if Eligible(subs[n]) then [Cleaned(subs[n])] else [])
  }

  /** Every reference row comes from an eligible submission. */
  lemma {:induction false} CandidatesFromEligible(subs: seq<Submission>)
    ensures forall x :: x in Candidates(subs) ==> exists i :: 0 <= i < |subs| && Eligible(subs[i]) && x == Cleaned(subs[i])
    decreases |subs|
  {
    if subs != [] {
      var n := |subs| - 1;
      var init := Candidates(subs[..n]);
      var last := if Eligible(subs[n]) then [Cleaned(subs[n])] else [];
      CandidatesFromEligible(subs[..n]);
      assert Candidates(subs) == init + last;
      forall x | x in Candidates(subs)
        ensures exists i :: 0 <= i < |subs| && Eligible(subs[i]) && x == Cleaned(subs[i])
      {
        if x in init {
          var i :| 0 <= i < n && Eligible(subs[..n][i]) && x == Cleaned(subs[..n][i]);
          assert subs[..n][i] == subs[i];
          assert Eligible(subs[i]) && x == Cleaned(subs[i]);
        } else {
          assert Eligible(subs[n]) && x == Cleaned(subs[n]);
        }
      }
    }
  }

  /** Every eligible submission is represented among the reference rows. */
  lemma {:induction false} EligibleInCandidates(subs: seq<Submission>)
    ensures forall i :: 0 <= i < |subs| && Eligible(subs[i]) ==> Cleaned(subs[i]) in Candidates(subs)
    decreases |subs|
  {
    if subs != [] {
      var n := |subs| - 1;
      var init := Candidates(subs[..n]);
      EligibleInCandidates(subs[..n]);
      assert Candidates(subs) == init + (if Eligible(subs[n]) then [Cleaned(subs[n])] else []);
      forall i | 0 <= i < |subs| && Eligible(subs[i])
        ensures Cleaned(subs[i]) in Candidates(subs)
      {
        if i < n {
          assert subs[..n][i] == subs[i];
          assert Cleaned(subs[i]) in init;
        }
      }
    }
  }

  function Prepare(s: Submission): Response<string> {
    Response(CleanPhone(s.phone), s.graduation, s.pronouns, s.college, s.areaOfStudy, s.numberOfTeas)
  }

  function Prepared(subs: seq<Submission>): seq<Response<string>> {
    seq(|subs|, i requires 0 <= i < |subs| => Prepare(subs[i]))
  }

  // ----- lemmas about the mask steps -----

  lemma KeptRowsHaveIds(rows: seq<Response<string>>)
    requires forall i :: 0 <= i < |rows| ==> AllDigits(rows[i].phone)
    ensures AllIds(Filter(rows, HasPhone))
  {
    var kept := Filter(rows, HasPhone);
    FilterSatisfies(rows, HasPhone);
    forall i | 0 <= i < |kept|
      ensures kept[i].phone != "" && AllDigits(kept[i].phone)
    {
      assert kept[i] in kept;
      var j :| 0 <= j < |rows| && rows[j] == kept[i];
    }
  }

  lemma PreparedSnoc(init: seq<Submission>, s: Submission)
    ensures Prepared(init + [s]) == Prepared(init) + [Prepare(s)]
  {
  }

  lemma CastConcat(a: seq<Response<string>>, b: seq<Response<string>>)
    requires AllIds(a) && AllIds(b)
    ensures AllIds(a + b) && Cast(a + b) == Cast(a) + Cast(b)
  {
  }

  /** The stepwise mask filter and integer cast agree with the row-by-row reference. */
  lemma {:induction false} MaskStepsMatchCandidates(subs: seq<Submission>)
    ensures AllIds(Filter(Prepared(subs), HasPhone))
    ensures Cast(Filter(Prepared(subs), HasPhone)) == Candidates(subs)
    decreases |subs|
  {
    if subs == [] {
      KeptRowsHaveIds(Prepared(subs));
    } else {
      MaskStepsMatchCandidates(subs[..|subs| - 1]);
      MaskStepSnoc(subs);
    }
  }

  /** The induction step: one more submission extends both sides alike. */
  lemma MaskStepSnoc(subs: seq<Submission>)
    requires subs != []
    requires AllIds(Filter(Prepared(subs[..|subs| - 1]), HasPhone))
    requires Cast(Filter(Prepared(subs[..|subs| - 1]), HasPhone)) == Candidates(subs[..|subs| - 1])
    ensures AllIds(Filter(Prepared(subs), HasPhone))
    ensures Cast(Filter(Prepared(subs), HasPhone)) == Candidates(subs)
  {
    var n := |subs| - 1;
    var a := Filter(Prepared(subs[..n]), HasPhone);
    var b: seq<Response<string>> := if HasPhone(Prepare(subs[n])) then [Prepare(subs[n])] else [];
    FilterPreparedSnoc(subs);
    CastOfOne(subs[n]);
    CastConcat(a, b);
  }

  /** One more submission adds its prepared row to the kept rows exactly when its
      Phone is non-empty. */
  lemma FilterPreparedSnoc(subs: seq<Submission>)
    requires subs != []
    ensures var n := |subs| - 1;
            Filter(Prepared(subs), HasPhone)
            == Filter(Prepared(subs[..n]), HasPhone) + (if HasPhone(Prepare(subs[n])) then [Prepare(subs[n])] else [])
  {
    var n := |subs| - 1;
    assert subs[..n] + [subs[n]] == subs;
    PreparedSnoc(subs[..n], subs[n]);
    FilterSnoc(Prepared(subs[..n]), Prepare(subs[n]), HasPhone);
  }

  /** The cast of the one row a submission leaves, if any, is its reference row. */
  lemma CastOfOne(s: Submission)
    ensures var b: seq<Response<string>> := if HasPhone(Prepare(s)) then [Prepare(s)] else [];
            AllIds(b) && Cast(b) == if Eligible(s) then [Cleaned(s)] else []
  {
  }

  // ----- lemmas about the duplicate mask -----

  lemma PhonesOfSnoc(rows: seq<Subject>, x: Subject)
    ensures PhonesOf(rows + [x]) == PhonesOf(rows) + {x.phone}
  {
    var s := rows + [x];
    assert forall r :: r in s <==> r in rows || r == x;
  }

  /** Appending a row appends it to the deduplicated rows exactly when its Phone is new. */
  lemma DropDuplicatesSnoc(rows: seq<Subject>, x: Subject)
    ensures DropDuplicates(rows + [x]) == DropDuplicates(rows) + (if x.phone in PhonesOf(rows) then [] else [x])
  {
    var s := rows + [x];
    forall i | 0 <= i < |rows|
      ensures FirstSeen(s)[i] == FirstSeen(rows)[i]
    {
      assert s[..i] == rows[..i];
    }
    assert FirstSeen(s)[..|rows|] == FirstSeen(rows);
    assert s[..|rows|] == rows;
  }

  /** No Phone value is lost by the deduplication. */
  lemma {:induction false} DropDuplicatesKeepsPhones(rows: seq<Subject>)
    ensures PhonesOf(DropDuplicates(rows)) == PhonesOf(rows)
    decreases |rows|
  {
    if rows != [] {
      var n := |rows| - 1;
      var init := rows[..n];
      assert init + [rows[n]] == rows;
      DropDuplicatesSnoc(init, rows[n]);
      DropDuplicatesKeepsPhones(init);
      PhonesOfSnoc(init, rows[n]);
      if rows[n].phone !in PhonesOf(init) {
        PhonesOfSnoc(DropDuplicates(init), rows[n]);
      }
    }
  }

  /** After the deduplication no two rows share a Phone. */
  lemma {:induction false} DropDuplicatesUnique(rows: seq<Subject>)
    ensures UniquePhones(DropDuplicates(rows))
    decreases |rows|
  {
    if rows != [] {
      var n := |rows| - 1;
      var init := rows[..n];
      assert init + [rows[n]] == rows;
      DropDuplicatesSnoc(init, rows[n]);
      DropDuplicatesUnique(init);
      if rows[n].phone !in PhonesOf(init) {
        var d := DropDuplicates(init);
        DropDuplicatesKeepsPhones(init);
        assert forall i :: 0 <= i < |d| ==> d[i] in d;
      }
    }
  }

  lemma FirstSeenMeansFirst(rows: seq<Subject>, i: nat)
    requires i < |rows|
    ensures FirstSeen(rows)[i] <==> IsFirstWithPhone(rows, i)
  {
    var prefix := rows[..i];
    if !IsFirstWithPhone(rows, i) {
      var j :| 0 <= j < i && rows[j].phone == rows[i].phone;
      assert prefix[j] in prefix;
    }
  }

  /** A row survives exactly when it is the first row with its Phone: the kept rows are
      the first occurrences. */
  lemma DropDuplicatesKeepsFirst(rows: seq<Subject>, x: Subject)
    ensures x in DropDuplicates(rows) <==> exists i :: 0 <= i < |rows| && rows[i] == x && IsFirstWithPhone(rows, i)
  {
    WhereMembers(rows, FirstSeen(rows), x);
    forall i | 0 <= i < |rows|
      ensures FirstSeen(rows)[i] <==> IsFirstWithPhone(rows, i)
    {
      FirstSeenMeansFirst(rows, i);
    }
  }

  lemma {:induction false} DropDuplicatesOfUnique(rows: seq<Subject>)
    requires UniquePhones(rows)
    ensures DropDuplicates(rows) == rows
    decreases |rows|
  {
    if rows != [] {
      var n := |rows| - 1;
      var init := rows[..n];
      assert init + [rows[n]] == rows;
      DropDuplicatesSnoc(init, rows[n]);
      DropDuplicatesOfUnique(init);
      assert rows[n].phone !in PhonesOf(init);
    }
  }

  /** Deduplicating twice is deduplicating once. */
  lemma DropDuplicatesIdempotent(rows: seq<Subject>)
    ensures DropDuplicates(DropDuplicates(rows)) == DropDuplicates(rows)
  {
    DropDuplicatesUnique(rows);
    DropDuplicatesOfUnique(DropDuplicates(rows));
  }

  // ----- the script -----

  /** The whole of lines 15-38, one column operation after the other. The result is the
      deduplicated reference rows: one row per id, the first eligible submission with
      that id, in submission order, and every eligible submission's id present. */
  method ProcessResponses(submissions: seq<Submission>) returns (responses: seq<Subject>)
    ensures responses == DropDuplicates(Candidates(submissions))
    ensures UniquePhones(responses)
    ensures IsSubsequence(responses, Candidates(submissions))
    ensures forall x :: x in responses ==>
              exists i :: 0 <= i < |submissions| && Eligible(submissions[i]) && x == Cleaned(submissions[i])
    ensures forall i :: 0 <= i < |submissions| && Eligible(submissions[i]) ==>
              Cleaned(submissions[i]).phone in PhonesOf(responses)
  {
    var dropped := DropTimeAndConsent(submissions);      // line 18
    var digits := CleanDigitsColumn(dropped);             // line 21
    var stripped := StripCountryCodeColumn(digits);       // line 24
    assert stripped == Prepared(submissions);
    var nonEmpty := DropEmptyPhones(stripped);            // line 27
    MaskStepsMatchCandidates(submissions);
    CandidatesFromEligible(submissions);
    EligibleInCandidates(submissions);
    var ids := ToIds(nonEmpty);                           // line 30
    responses := DropDuplicates(ids);                     // line 38

    DropDuplicatesUnique(ids);
    DropDuplicatesKeepsPhones(ids);
    forall x | x in responses
      ensures exists i :: 0 <= i < |submissions| && Eligible(submissions[i]) && x == Cleaned(submissions[i])
    {
      DropDuplicatesKeepsFirst(ids, x);
      var k :| 0 <= k < |ids| && ids[k] == x && IsFirstWithPhone(ids, k);
      assert ids[k] in ids;
    }
    forall i | 0 <= i < |submissions| && Eligible(submissions[i])
      ensures Cleaned(submissions[i]).phone in PhonesOf(responses)
    {
      assert Cleaned(submissions[i]) in ids;
    }
  }

  // ----- worked examples from the survey -----

  // The worked examples reason about the digit filter itself, which is the body of
  // StripNonDigits.

  /** Three pieces: text, digits, text. */
  lemma StripPieces(a: string, b: string, c: string)
    requires NoDigits(a) && AllDigits(b) && NoDigits(c)
    ensures Filter(a + b + c, IsDigit) == b
  {
    FilterNoneSatisfy(a, IsDigit);
    FilterAllSatisfy(b, IsDigit);
    FilterNoneSatisfy(c, IsDigit);
    FilterConcat(a, b, IsDigit);
    FilterConcat(a + b, c, IsDigit);
  }

  /** A phone typed as three digit groups with separators (an opening one possibly
      empty) strips to the three groups run together. */
  lemma StripDigitGroups(open: string, a: string, sep1: string, b: string, sep2: string, c: string)
    requires NoDigits(open) && NoDigits(sep1) && NoDigits(sep2)
    requires AllDigits(a) && AllDigits(b) && AllDigits(c)
    ensures StripNonDigits(open + a + sep1 + b + sep2 + c) == a + b + c
  {
    StripPieces(open, a, sep1);
    StripPieces("", b, sep2);
    FilterAllSatisfy(c, IsDigit);
    assert "" + b + sep2 == b + sep2;
    FilterConcat(open + a + sep1, b + sep2, IsDigit);
    assert open + a + sep1 + b + sep2 == (open + a + sep1) + (b + sep2);
    FilterConcat(open + a + sep1 + b + sep2, c, IsDigit);
  }

  /** How the survey's spellings of one number split into digit groups and
      separators. */
  lemma SurveySpellings()
    ensures "(" + "415" + ") " + "555" + "-" + "1234" == "(415) 555-1234"
    ensures "" + "415" + "-" + "555" + "-" + "1234" == "415-555-1234"
    ensures "1" + " " + "(415) 555-1234" == "1 (415) 555-1234"
    ensures "415" + "555" + "1234" == "4155551234" && "1" + "4155551234" == "14155551234"
  {
  }

  /** The two ways the survey shows a ten-digit number strip to the same digits. */
  lemma StripFormatsExample()
    ensures StripNonDigits("(415) 555-1234") == "4155551234"
    ensures StripNonDigits("415-555-1234") == "4155551234"
  {
    SurveySpellings();
    StripDigitGroups("(", "415", ") ", "555", "-", "1234");
    StripDigitGroups("", "415", "-", "555", "-", "1234");
  }

  /** A leading run of digits and a separator before a phone stay in front of its
      digits. */
  lemma StripPrefixedGroups(code: string, sep: string, rest: string)
    requires AllDigits(code) && NoDigits(sep)
    ensures Filter(code + sep + rest, IsDigit) == code + Filter(rest, IsDigit)
  {
    StripPieces("", code, sep);
    assert "" + code + sep == code + sep;
    FilterConcat(code + sep, rest, IsDigit);
  }

  lemma StripCountryCodeExample()
    ensures StripNonDigits("1 (415) 555-1234") == "14155551234"
  {
    SurveySpellings();
    StripFormatsExample();
    StripPrefixedGroups("1", " ", "(415) 555-1234");
  }

  /** "(415) 555-1234" and "14155551234" both clean to "4155551234"; "anise" and "1"
      clean to the empty string and are dropped. */
  lemma SurveyExamples()
    ensures CleanPhone("(415) 555-1234") == "4155551234"
    ensures CleanPhone("14155551234") == "4155551234"
    ensures CleanPhone("anise") == "" && CleanPhone("1") == ""
  {
    StripFormatsExample();
    StripNonDigitsOfDigits("14155551234");
    assert "14155551234"[1..] == "4155551234";
    StripNonDigitsOfText("anise");
    StripNonDigitsOfDigits("1");
  }

  /** The as-written replacement (literal "^1") keeps the country code of
      "1 (415) 555-1234", so that subject gets the id 14155551234 while the same person
      typing "415-555-1234" gets 4155551234: the deduplication no longer merges them.
      The anchored replacement gives both the same id. */
  lemma LiteralPatternSplitsSubject()
    ensures CleanPhoneAsWritten("1 (415) 555-1234") == "14155551234"
    ensures CleanPhoneAsWritten("415-555-1234") == "4155551234"
    ensures ParseDecimal("14155551234") != ParseDecimal("4155551234")
    ensures CleanPhone("1 (415) 555-1234") == CleanPhone("415-555-1234") == "4155551234"
  {
    StripCountryCodeExample();
    StripFormatsExample();
    assert "14155551234"[1..] == "4155551234";
    DecimalStringParse("14155551234");
    DecimalStringParse("4155551234");
  }
}
