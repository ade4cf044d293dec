/** The Gmail integration's payload handling (watflow/integrations/gmail.py): turning
    a `users.messages.get` response into a message record, and building the
    parameters of `users.messages.list` and the body of `users.messages.modify`.

    A message payload is a tree of MIME parts.  Base64 decoding is not modelled: the
    text a part's `body.data` decodes to is given by the `decode` parameter. */
module Gmail {
  import opened Wrappers
  import opened Json
  import Dict
  import Seqs

  /** One MIME part of a payload.  `mimeType` and `size` are absent when the response
      leaves them out; `filename`, `data` and `attachmentId` are empty then. */
  datatype Part = Part(
    mimeType: Option<string>,
    filename: string,
    headers: seq<(string, string)>,
    data: string,
    attachmentId: string,
    size: Option<int>,
    parts: seq<Part>)

  /** The payload `{}` used when a response has none. */
  const EmptyPart := Part(None, "", [], "", "", None, [])

  /** The parts of a payload in pre-order: a part before its sub-parts, sub-parts in order. */
  function Flatten(p: Part): (r: seq<Part>)
    ensures r != [] && r[0] == p
    decreases p, 1
  {
    [p] + FlattenAll(p.parts)
  }

  function FlattenAll(ps: seq<Part>): seq<Part>
    decreases ps, 0
  {
    if ps == [] then [] else Flatten(ps[0]) + FlattenAll(ps[1..])
  }

  // ---------------------------------------------------------------------------
  // _extract_body
  // ---------------------------------------------------------------------------

  /** `(body_plain, body_html)` while the walk is under way. */
  datatype Bodies = Bodies(plain: string, html: string)

  /** What visiting one part does: a part with data sets the plain (or HTML) body
      if it is a `text/plain` (or `text/html`) part and that body is still empty. */
  function Step(p: Part, decode: string -> string, b: Bodies): (r: Bodies)
    ensures b.plain != "" ==> r.plain == b.plain
    ensures b.html != "" ==> r.html == b.html
    ensures r.plain == b.plain || (p.mimeType == Some("text/plain") && p.data != "" && r.plain == decode(p.data))
    ensures r.html == b.html || (p.mimeType == Some("text/html") && p.data != "" && r.html == decode(p.data))
  {
    if p.data == "" then b
    else
      var decoded := decode(p.data);
      if p.mimeType == Some("text/plain") && b.plain == "" then Bodies(decoded, b.html)
      else if p.mimeType == Some("text/html") && b.html == "" then Bodies(b.plain, decoded)
      else b
  }

  /** `extract_from_part(part)`: the part itself, then each sub-part in turn. */
  function Visit(p: Part, decode: string -> string, b: Bodies): (r: Bodies)
    ensures b.plain != "" ==> r.plain == b.plain
    ensures b.html != "" ==> r.html == b.html
    decreases p, 1
  {
    VisitAll(p.parts, decode, Step(p, decode, b))
  }

  function VisitAll(ps: seq<Part>, decode: string -> string, b: Bodies): (r: Bodies)
    ensures b.plain != "" ==> r.plain == b.plain
    ensures b.html != "" ==> r.html == b.html
    decreases ps, 0
  {
    if ps == [] then b else VisitAll(ps[1..], decode, Visit(ps[0], decode, b))
  }

  /** `_extract_body(payload)`: `body_plain` and `body_html` come from the first
      `text/plain` and the first `text/html` part in pre-order whose data decodes to
      a non-empty text; later parts never overwrite them, and parts without data are
      skipped while their sub-parts are still searched. */
  function ExtractBody(payload: Part, decode: string -> string): (r: Bodies)
    ensures r == Bodies(FirstBody(Flatten(payload), "text/plain", decode), FirstBody(Flatten(payload), "text/html", decode))
  {
    VisitIsPreorder(payload, decode, Bodies("", ""));
    StepAllFirst(Flatten(payload), decode, Bodies("", ""));
    Visit(payload, decode, Bodies("", ""))
  }

  /** The text of the first part in `parts` of type `mime` that has data decoding to
      a non-empty text, or "" if there is none. */
  function FirstBody(parts: seq<Part>, mime: string, decode: string -> string): (r: string)
    ensures r != "" <==> exists i :: 0 <= i < |parts| && Carries(parts[i], mime, decode)
    ensures r != "" ==> exists i :: 0 <= i < |parts| && Carries(parts[i], mime, decode) && r == decode(parts[i].data)
  {
    if parts == [] then ""
    else if Carries(parts[0], mime, decode) then decode(parts[0].data)
    else
      var r := FirstBody(parts[1..], mime, decode);
      assert forall i :: 0 < i < |parts| ==> parts[i] == parts[1..][i - 1];
      r
  }

  predicate Carries(p: Part, mime: string, decode: string -> string) {
    p.mimeType == Some(mime) && p.data != "" && decode(p.data) != ""
  }

  /** Visiting parts one after another, as a list. */
  function StepAll(parts: seq<Part>, decode: string -> string, b: Bodies): Bodies
    decreases |parts|
  {
    if parts == [] then b else StepAll(parts[1..], decode, Step(parts[0], decode, b))
  }

  lemma {:induction false} StepAllAppend(a: seq<Part>, c: seq<Part>, decode: string -> string, b: Bodies)
    ensures StepAll(a + c, decode, b) == StepAll(c, decode, StepAll(a, decode, b))
    decreases |a|
  {
    if a == [] {
      assert a + c == c;
    } else {
      assert (a + c)[0] == a[0];
      assert (a + c)[1..] == a[1..] + c;
      StepAllAppend(a[1..], c, decode, Step(a[0], decode, b));
    }
  }

  /** The recursive walk visits exactly the pre-order list of parts. */
  lemma {:induction false} VisitIsPreorder(p: Part, decode: string -> string, b: Bodies)
    ensures Visit(p, decode, b) == StepAll(Flatten(p), decode, b)
    decreases p, 1
  {
    VisitAllIsPreorder(p.parts, decode, Step(p, decode, b));
    assert ([p] + FlattenAll(p.parts))[1..] == FlattenAll(p.parts);
  }

  lemma {:induction false} VisitAllIsPreorder(ps: seq<Part>, decode: string -> string, b: Bodies)
    ensures VisitAll(ps, decode, b) == StepAll(FlattenAll(ps), decode, b)
    decreases ps, 0
  {
    if ps != [] {
      VisitIsPreorder(ps[0], decode, b);
      VisitAllIsPreorder(ps[1..], decode, Visit(ps[0], decode, b));
      StepAllAppend(Flatten(ps[0]), FlattenAll(ps[1..]), decode, b);
    }
  }

  /** Over a list, a body once non-empty stays; an empty one becomes the first
      matching part's text. */
  lemma {:induction false} StepAllFirst(parts: seq<Part>, decode: string -> string, b: Bodies)
    ensures StepAll(parts, decode, b).plain == if b.plain != "" then b.plain else FirstBody(parts, "text/plain", decode)
    ensures StepAll(parts, decode, b).html == if b.html != "" then b.html else FirstBody(parts, "text/html", decode)
    decreases |parts|
  {
    if parts != [] {
      StepAllFirst(parts[1..], decode, Step(parts[0], decode, b));
    }
  }

  // ---------------------------------------------------------------------------
  // _extract_attachments
  // ---------------------------------------------------------------------------

  datatype Attachment = Attachment(filename: string, mimeType: string, size: int, attachmentId: string)

  /** `if filename and attachment_id`. */
  predicate IsAttachment(p: Part) {
    p.filename != "" && p.attachmentId != ""
  }

  /** The record appended for an attachment part. */
  function AttachmentOf(p: Part): Attachment {
    Attachment(p.filename, p.mimeType.GetOr("application/octet-stream"), p.size.GetOr(0), p.attachmentId)
  }

  /** `extract_from_part(part)` appending to `acc`. */
  function Collect(p: Part, acc: seq<Attachment>): (r: seq<Attachment>)
    ensures |acc| <= |r| && r[..|acc|] == acc
    decreases p, 1
  {
    CollectAll(p.parts, if IsAttachment(p) then acc + [AttachmentOf(p)] else acc)
  }

  function CollectAll(ps: seq<Part>, acc: seq<Attachment>): (r: seq<Attachment>)
    ensures |acc| <= |r| && r[..|acc|] == acc
    decreases ps, 0
  {
    if ps == [] then acc else CollectAll(ps[1..], Collect(ps[0], acc))
  }

  /** `_extract_attachments(payload, message_id)`: the attachments are exactly the
      parts, in pre-order, with both a file name and an attachment id; the MIME type
      defaults to `application/octet-stream` and the size to 0. */
  function ExtractAttachments(payload: Part): (r: seq<Attachment>)
    ensures r == Attachments(Flatten(payload))
  {
    CollectIsPreorder(payload, []);
    Collect(payload, [])
  }

  /** The attachment records of the attachment parts of a list, in list order. */
  function Attachments(parts: seq<Part>): (r: seq<Attachment>)
    ensures |r| <= |parts|
  {
    if parts == [] then []
    else (if IsAttachment(parts[0]) then [AttachmentOf(parts[0])] else []) + Attachments(parts[1..])
  }

  /** A record is listed exactly when some part of the list is an attachment it describes. */
  lemma {:induction false} AttachmentsMembers(parts: seq<Part>, a: Attachment)
    ensures a in Attachments(parts) <==> exists i :: 0 <= i < |parts| && IsAttachment(parts[i]) && a == AttachmentOf(parts[i])
  {
    if parts != [] {
      AttachmentsMembers(parts[1..], a);
      assert forall i :: 0 < i < |parts| ==> parts[i] == parts[1..][i - 1];
      if a in Attachments(parts[1..]) {
        var i :| 0 <= i < |parts[1..]| && IsAttachment(parts[1..][i]) && a == AttachmentOf(parts[1..][i]);
        assert parts[i + 1] == parts[1..][i];
      }
    }
  }

  lemma {:induction false} AttachmentsAppend(a: seq<Part>, b: seq<Part>)
    ensures Attachments(a + b) == Attachments(a) + Attachments(b)
  {
    if a == [] {
      assert a + b == b;
    } else {
      var head := if IsAttachment(a[0]) then [AttachmentOf(a[0])] else [];
      assert (a + b)[0] == a[0];
      assert (a + b)[1..] == a[1..] + b;
      AttachmentsAppend(a[1..], b);
      assert Attachments(a + b) == head + (Attachments(a[1..]) + Attachments(b));
      Seqs.AppendAssoc(head, Attachments(a[1..]), Attachments(b));
    }
  }

  lemma {:induction false} CollectIsPreorder(p: Part, acc: seq<Attachment>)
    ensures Collect(p, acc) == acc + Attachments(Flatten(p))
    decreases p, 1
  {
    var acc' := if IsAttachment(p) then acc + [AttachmentOf(p)] else acc;
    CollectAllIsPreorder(p.parts, acc');
    AttachmentsAppend([p], FlattenAll(p.parts));
  }

  lemma {:induction false} CollectAllIsPreorder(ps: seq<Part>, acc: seq<Attachment>)
    ensures CollectAll(ps, acc) == acc + Attachments(FlattenAll(ps))
    decreases ps, 0
  {
    if ps == [] {
      assert acc + [] == acc;
    } else {
      CollectIsPreorder(ps[0], acc);
      CollectAllIsPreorder(ps[1..], Collect(ps[0], acc));
      AttachmentsAppend(Flatten(ps[0]), FlattenAll(ps[1..]));
      var a0 := Attachments(Flatten(ps[0]));
      var a1 := Attachments(FlattenAll(ps[1..]));
      assert FlattenAll(ps) == Flatten(ps[0]) + FlattenAll(ps[1..]);
      Seqs.AppendAssoc(acc, a0, a1);
    }
  }

  // ---------------------------------------------------------------------------
  // _parse_message
  // ---------------------------------------------------------------------------

  /** The fields of a `users.messages.get` response the parser reads. */
  datatype RawMessage = RawMessage(
    id: Option<string>,
    threadId: Option<string>,
    snippet: Option<string>,
    labelIds: Option<seq<string>>,
    payload: Option<Part>)

  datatype Message = Message(
    id: string,
    threadId: string,
    subject: string,
    sender: string,
    to: string,
    date: string,
    snippet: string,
    bodyPlain: string,
    bodyHtml: string,
    labels: seq<string>,
    attachments: seq<Attachment>)

  /** `_parse_message(msg)`: a missing `id` or `threadId` raises `KeyError`. */
  function ParseMessage(msg: RawMessage, decode: string -> string): (r: Result<Message, string>)
    ensures r.Err? <==> msg.id.None? || msg.threadId.None?
    ensures msg.id.None? ==> r == Err("'id'")
    ensures msg.id.Some? && msg.threadId.None? ==> r == Err("'threadId'")
    ensures r.Ok? ==>
      var headers := msg.payload.GetOr(EmptyPart).headers;
      && r.value.id == msg.id.value && r.value.threadId == msg.threadId.value
      && r.value.subject == Dict.LastValue(headers, "Subject").GetOr("")
      && r.value.sender == Dict.LastValue(headers, "From").GetOr("")
      && r.value.to == Dict.LastValue(headers, "To").GetOr("")
      && r.value.date == Dict.LastValue(headers, "Date").GetOr("")
      && r.value.snippet == msg.snippet.GetOr("")
      && r.value.labels == msg.labelIds.GetOr([])
  {
    var payload := msg.payload.GetOr(EmptyPart);
    var headers := Dict.FromPairs(payload.headers);
    var bodies := ExtractBody(payload, decode);
    if msg.id.None? then Err("'id'")
    else
      var attachments := ExtractAttachments(payload);
      if msg.threadId.None? then Err("'threadId'")
      else
        Ok(Message(
          msg.id.value, msg.threadId.value,
          Dict.Get(headers, "Subject").GetOr(""), Dict.Get(headers, "From").GetOr(""),
          Dict.Get(headers, "To").GetOr(""), Dict.Get(headers, "Date").GetOr(""),
          msg.snippet.GetOr(""), bodies.plain, bodies.html,
          msg.labelIds.GetOr([]), attachments))
  }

  /** A parsed message's bodies and attachments are those of its payload's pre-order
      walk; a message without a payload has none. */
  lemma ParseMessageContent(msg: RawMessage, decode: string -> string)
    requires ParseMessage(msg, decode).Ok?
    ensures var m := ParseMessage(msg, decode).value;
      var parts := Flatten(msg.payload.GetOr(EmptyPart));
      && m.bodyPlain == FirstBody(parts, "text/plain", decode)
      && m.bodyHtml == FirstBody(parts, "text/html", decode)
      && m.attachments == Attachments(parts)
    ensures msg.payload.None? ==>
      var m := ParseMessage(msg, decode).value;
      m.bodyPlain == "" && m.bodyHtml == "" && m.attachments == []
  {
    var payload := msg.payload.GetOr(EmptyPart);
    assert Flatten(EmptyPart) == [EmptyPart];
  }

  // ---------------------------------------------------------------------------
  // get_messages and _modify_labels request building
  // ---------------------------------------------------------------------------

  /** The largest page `users.messages.list` is asked for. */
  const MaxPage := 500

  /** The keyword arguments of `users.messages.list`: `userId` and `maxResults`,
      then `q` for a non-empty query and `labelIds` for a non-empty label list, each
      new key appended in insertion order. */
  function ListParams(query: string, maxResults: int, labelIds: Option<seq<string>>): (r: Fields)
    ensures Dict.Distinct(Dict.Keys(r))
    ensures Dict.Keys(r) == ["userId", "maxResults"] + (if query != "" then ["q"] else [])
      + (if labelIds.Some? && labelIds.value != [] then ["labelIds"] else [])
    ensures 2 <= |r| <= 4
  {
    [("userId", Str("me")), ("maxResults", Int(if maxResults < MaxPage then maxResults else MaxPage))]
      + (if query != "" then [("q", Str(query))] else [])
      + (if labelIds.Some? && labelIds.value != [] then [("labelIds", StrList(labelIds.value))] else [])
  }

  /** The parameters say what was asked for: `maxResults` is the request capped at
      500; `q` and `labelIds` are present exactly when non-empty and carry the query
      and the labels. */
  lemma ListParamsReadBack(query: string, maxResults: int, labelIds: Option<seq<string>>)
    ensures var params := ListParams(query, maxResults, labelIds);
      && Dict.Get(params, "userId") == Some(Str("me"))
      && Dict.Get(params, "maxResults") == Some(Int(if maxResults < MaxPage then maxResults else MaxPage))
      && (Dict.Get(params, "q") == if query != "" then Some(Str(query)) else None)
      && (Dict.Get(params, "labelIds") == if labelIds.Some? && labelIds.value != [] then Some(StrList(labelIds.value)) else None)
  {
    ListParamsFixed(query, maxResults, labelIds);
    ListParamsQuery(query, maxResults, labelIds);
    ListParamsLabels(query, maxResults, labelIds);
  }

  lemma ListParamsFixed(query: string, maxResults: int, labelIds: Option<seq<string>>)
    ensures var params := ListParams(query, maxResults, labelIds);
      && Dict.Get(params, "userId") == Some(Str("me"))
      && Dict.Get(params, "maxResults") == Some(Int(if maxResults < MaxPage then maxResults else MaxPage))
  {
    var params := ListParams(query, maxResults, labelIds);
    assert params[0].0 == "userId";
    assert params[1] == ("maxResults", Int(if maxResults < MaxPage then maxResults else MaxPage));
    Dict.GetFirstAt(params, 0, "userId");
    Dict.GetFirstAt(params, 1, "maxResults");
  }

  lemma ListParamsQuery(query: string, maxResults: int, labelIds: Option<seq<string>>)
    ensures Dict.Get(ListParams(query, maxResults, labelIds), "q") == if query != "" then Some(Str(query)) else None
  {
    var params := ListParams(query, maxResults, labelIds);
    if query != "" {
      assert params[2] == ("q", Str(query));
      Dict.GetFirstAt(params, 2, "q");
    } else {
      assert forall i :: 0 <= i < |params| ==> Dict.Keys(params)[i] != "q";
    }
  }

  lemma ListParamsLabels(query: string, maxResults: int, labelIds: Option<seq<string>>)
    ensures Dict.Get(ListParams(query, maxResults, labelIds), "labelIds") ==
      if labelIds.Some? && labelIds.value != [] then Some(StrList(labelIds.value)) else None
  {
    var params := ListParams(query, maxResults, labelIds);
    if labelIds.Some? && labelIds.value != [] {
      assert params[|params| - 1] == ("labelIds", StrList(labelIds.value));
      Dict.GetFirstAt(params, |params| - 1, "labelIds");
    } else {
      assert forall i :: 0 <= i < |params| ==> Dict.Keys(params)[i] != "labelIds";
    }
  }

  /** The body of `users.messages.modify`: `addLabelIds` and `removeLabelIds` for the
      non-empty lists; no request at all (None) when both are empty. */
  function ModifyBody(add: Option<seq<string>>, remove: Option<seq<string>>): (body: Option<Fields>)
    ensures body.None? <==> (add.None? || add.value == []) && (remove.None? || remove.value == [])
    ensures body.Some? ==>
      Dict.Keys(body.value) ==
        (if add.Some? && add.value != [] then ["addLabelIds"] else [])
        + (if remove.Some? && remove.value != [] then ["removeLabelIds"] else [])
  {
    var adds := if add.Some? && add.value != [] then [("addLabelIds", StrList(add.value))] else [];
    var removes := if remove.Some? && remove.value != [] then [("removeLabelIds", StrList(remove.value))] else [];
    var fields := adds + removes;
    Dict.KeysAppend(adds, removes);
    if fields == [] then None else Some(fields)
  }

  /** The request reads back as the labels to add and to remove. */
  lemma ModifyBodyReadBack(add: Option<seq<string>>, remove: Option<seq<string>>)
    requires ModifyBody(add, remove).Some?
    ensures var body := ModifyBody(add, remove).value;
      && (Dict.Get(body, "addLabelIds") == if add.Some? && add.value != [] then Some(StrList(add.value)) else None)
      && (Dict.Get(body, "removeLabelIds") == if remove.Some? && remove.value != [] then Some(StrList(remove.value)) else None)
  {
  }
}
