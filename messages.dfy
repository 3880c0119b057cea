/**
 * The message normaliser (`parseConversation`): flattens a conversation's mapping of
 * message nodes into a list of records with defaulted role and model and a content
 * string extracted by shape.
 *
 * Raw JSON values that are only ever serialised have the type parameter `J`, and
 * `JSON.stringify` is the parameter `serialize: J -> string`, about which nothing is assumed.
 */
module Messages {
  import opened Wrappers
  import opened Strings

  /** The default for a missing or empty role or model. */
  const Unknown: string := "unknown"

  /** One element of an array-shaped content; `text` is `None` when the property is absent. */
  datatype Element<J> = Element(text: Option<string>, whole: J)

  /**
   * The shapes of `message.content`, in the order the normaliser probes them.
   * `WithText` is an object without `parts` whose `text` is a string, possibly empty;
   * `Other` is every remaining value, including a missing content.
   */
  datatype Content<J> =
    | WithParts(parts: seq<string>)
    | WithText(text: string, whole: J)
    | Elements(elements: seq<Element<J>>)
    | Other(whole: J)

  /** A raw message: `author.role`, `metadata.model_slug`, `create_time`, `content`. */
  datatype RawMessage<J> = RawMessage(role: Option<string>, modelSlug: Option<string>,
                                      createTime: Option<real>, content: Content<J>)

  /** A mapping node; a null or missing `message` is `None`. */
  datatype Node<J> = Node(message: Option<RawMessage<J>>)

  /** A raw conversation; `mapping` lists its (key, node) pairs in `Object.keys` order. */
  datatype RawConversation<J> = RawConversation(title: Option<string>, createTime: Option<real>,
                                                mapping: seq<(string, Node<J>)>)

  datatype Message = Message(role: string, content: string, model: string, createTime: Option<real>)

  datatype Conversation = Conversation(messages: seq<Message>, createTime: Option<real>, title: Option<string>)

  /** JavaScript truthiness of an optional string: present and non-empty. */
  predicate Truthy(s: Option<string>)
  {
    s.Some? && s.value != ""
  }

  /** `s || "unknown"` */
  function OrUnknown(s: Option<string>): (r: string)
    ensures r != ""
  {
    if Truthy(s) then s.value else Unknown
  }

  /** `c.text || JSON.stringify(c)` */
  function ElementText<J>(e: Element<J>, serialize: J -> string): string
  {
    if Truthy(e.text) then e.text.value else serialize(e.whole)
  }

  /** The content string of a message, by the probing order parts, text, array, anything else. */
  function ContentText<J>(c: Content<J>, serialize: J -> string): string
  {
    match c
    case WithParts(parts) => JoinLines(parts)
    case WithText(text, whole) => if text != "" then text else serialize(whole)
    case Elements(elements) =>
      JoinLines(seq(|elements|, k requires 0 <= k < |elements| => ElementText(elements[k], serialize)))
    case Other(whole) => serialize(whole)
  }

  function NormalizeMessage<J>(m: RawMessage<J>, serialize: J -> string): (r: Message)
    ensures r.role != "" && r.model != "" && r.createTime == m.createTime
  {
    Message(OrUnknown(m.role), ContentText(m.content, serialize), OrUnknown(m.modelSlug), m.createTime)
  }

  /** The messages pushed for the nodes of `mapping`, in key order; absent messages are skipped. */
  function NormalizeAll<J>(mapping: seq<(string, Node<J>)>, serialize: J -> string): seq<Message>
  {
    if |mapping| == 0 then []
    else
      var earlier := NormalizeAll(mapping[..|mapping| - 1], serialize);
      match mapping[|mapping| - 1].1.message
      case None => earlier
      case Some(m) => earlier + [NormalizeMessage(m, serialize)]
  }

  /** The conversation record `parseConversation` returns. */
  function Parsed<J>(raw: RawConversation<J>, serialize: J -> string): Conversation
  {
    Conversation(NormalizeAll(raw.mapping, serialize), raw.createTime, raw.title)
  }

  /** The loop of `parseConversation` over the keys of the mapping. */
  method ParseConversation<J>(raw: RawConversation<J>, serialize: J -> string) returns (conversation: Conversation)
    ensures conversation == Parsed(raw, serialize)
    ensures conversation.title == raw.title && conversation.createTime == raw.createTime
  {
    var messages: seq<Message> := [];
    for i := 0 to |raw.mapping|
      invariant messages == NormalizeAll(raw.mapping[..i], serialize)
    {
      assert raw.mapping[..i + 1][..i] == raw.mapping[..i];
      var msg := raw.mapping[i].1.message;
      if msg.Some? {
        messages := messages + [NormalizeMessage(msg.value, serialize)];
      }
    }
    assert raw.mapping[..|raw.mapping|] == raw.mapping;
    conversation := Conversation(messages, raw.createTime, raw.title);
  }

  /** The number of nodes of `mapping` whose message is present. */
  function PresentCount<J>(mapping: seq<(string, Node<J>)>): (n: nat)
    ensures n <= |mapping|
  {
    if |mapping| == 0 then 0
    else PresentCount(mapping[..|mapping| - 1]) + (if mapping[|mapping| - 1].1.message.Some? then 1 else 0)
  }

  /** One message per node with a present message, and no others. */
  lemma {:induction false} NormalizeAllLength<J>(mapping: seq<(string, Node<J>)>, serialize: J -> string)
    ensures |NormalizeAll(mapping, serialize)| == PresentCount(mapping)
  {
    if |mapping| > 0 {
      NormalizeAllLength(mapping[..|mapping| - 1], serialize);
    }
  }

  /** Node `i`, when its message is present, yields the message at position "present nodes before i". */
  lemma {:induction false} NormalizeAllAt<J>(mapping: seq<(string, Node<J>)>, serialize: J -> string, i: nat)
    requires i < |mapping| && mapping[i].1.message.Some?
    ensures PresentCount(mapping[..i]) < |NormalizeAll(mapping, serialize)|
    ensures NormalizeAll(mapping, serialize)[PresentCount(mapping[..i])] ==
            NormalizeMessage(mapping[i].1.message.value, serialize)
  {
    var n := |mapping|;
    var prefix := mapping[..n - 1];
    NormalizeAllLength(prefix, serialize);
    if i == n - 1 {
      assert prefix == mapping[..i];
    } else {
      NormalizeAllAt(prefix, serialize, i);
      assert prefix[..i] == mapping[..i];
    }
  }

  lemma {:induction false} PresentCountMonotone<J>(mapping: seq<(string, Node<J>)>, i: nat, j: nat)
    requires i <= j <= |mapping|
    ensures PresentCount(mapping[..i]) <= PresentCount(mapping[..j])
    decreases j - i
  {
    if i < j {
      PresentCountMonotone(mapping, i, j - 1);
      assert mapping[..j][..j - 1] == mapping[..j - 1];
    }
  }

  /** Key order is kept: an earlier present node yields an earlier message. */
  lemma NormalizeAllKeepsOrder<J>(mapping: seq<(string, Node<J>)>, i: nat, j: nat)
    requires i < j <= |mapping| && mapping[i].1.message.Some?
    ensures PresentCount(mapping[..i]) < PresentCount(mapping[..j])
  {
    PresentCountMonotone(mapping, i + 1, j);
    assert mapping[..i + 1][..i] == mapping[..i];
  }

  /** A mapping whose messages are all absent yields no messages. */
  lemma {:induction false} NormalizeAllAbsent<J>(mapping: seq<(string, Node<J>)>, serialize: J -> string)
    requires forall k :: 0 <= k < |mapping| ==> mapping[k].1.message.None?
    ensures NormalizeAll(mapping, serialize) == []
  {
    if |mapping| > 0 {
      NormalizeAllAbsent(mapping[..|mapping| - 1], serialize);
    }
  }

  /** Role and model are never empty: the raw value when truthy, "unknown" otherwise; the time passes through. */
  lemma NormalizeMessageFields<J>(m: RawMessage<J>, serialize: J -> string)
    ensures NormalizeMessage(m, serialize).role != "" && NormalizeMessage(m, serialize).model != ""
    ensures NormalizeMessage(m, serialize).role == Unknown <==> (!Truthy(m.role) || m.role.value == Unknown)
    ensures NormalizeMessage(m, serialize).model == Unknown <==> (!Truthy(m.modelSlug) || m.modelSlug.value == Unknown)
    ensures Truthy(m.role) ==> NormalizeMessage(m, serialize).role == m.role.value
    ensures Truthy(m.modelSlug) ==> NormalizeMessage(m, serialize).model == m.modelSlug.value
    ensures NormalizeMessage(m, serialize).createTime == m.createTime
  {
  }

  /** Content given as newline-free parts can be split back into those parts. */
  lemma ContentFromParts<J>(parts: seq<string>, serialize: J -> string)
    requires |parts| >= 1
    requires forall k :: 0 <= k < |parts| ==> '\n' !in parts[k]
    ensures SplitLines(ContentText(WithParts(parts), serialize)) == parts
  {
    SplitJoinLines(parts);
  }

  /**
   * Array content yields one line per element: the element's text when truthy, its
   * serialisation otherwise (provided these pieces are newline-free).
   */
  lemma ContentFromElements<J>(elements: seq<Element<J>>, serialize: J -> string)
    requires |elements| >= 1
    requires forall k :: 0 <= k < |elements| ==> '\n' !in ElementText(elements[k], serialize)
    ensures |SplitLines(ContentText(Elements(elements), serialize))| == |elements|
    ensures forall k :: 0 <= k < |elements| ==>
              SplitLines(ContentText(Elements(elements), serialize))[k] ==
              (if Truthy(elements[k].text) then elements[k].text.value else serialize(elements[k].whole))
  {
    var lines := seq(|elements|, k requires 0 <= k < |elements| => ElementText(elements[k], serialize));
    SplitJoinLines(lines);
  }

  /** Text content is taken verbatim when non-empty; an empty text falls back to serialising the whole content. */
  lemma ContentFromText<J>(text: string, whole: J, serialize: J -> string)
    ensures text != "" ==> ContentText(WithText(text, whole), serialize) == text
    ensures text == "" ==> ContentText(WithText(text, whole), serialize) == serialize(whole)
  {
  }

  /** A node `{message: {author: {role: "user"}, content: {parts: ["hi"]}}}` alone, and a null message. */
  lemma ParseExamples<J>(serialize: J -> string, key: string)
    ensures NormalizeAll([(key, Node(Some(RawMessage(Some("user"), None, None, WithParts(["hi"])))))], serialize)
            == [Message("user", "hi", Unknown, None)]
    ensures NormalizeAll([(key, Node(None))], serialize) == []
  {
    var one: seq<(string, Node<J>)> := [(key, Node(Some(RawMessage(Some("user"), None, None, WithParts(["hi"])))))];
    assert one[..0] == [];
    var none: seq<(string, Node<J>)> := [(key, Node(None))];
    assert none[..0] == [];
  }
}
