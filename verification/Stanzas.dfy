/** Stanzas as the negotiation handlers see them. */
module Stanzas {
  import opened Common

  datatype Stanza = Stanza(name: string, ns: string, kind: Option<string>, id: Option<string>, text: string,
                           children: seq<Stanza>)

  /** xmpp_stanza_get_child_by_name */
  function ChildByName(children: seq<Stanza>, name: string): (r: Option<Stanza>)
    ensures r.Some? ==> exists k :: 0 <= k < |children| && children[k] == r.value && r.value.name == name &&
                                   forall j :: 0 <= j < k ==> children[j].name != name
    ensures r.None? ==> forall c :: c in children ==> c.name != name
  {
    if children == [] then None
    else if children[0].name == name then
      assert children[0] == children[0];
      Some(children[0])
    else
      var r := ChildByName(children[1..], name);
      assert children[1..] + [] == children[1..];
      assert forall k :: 1 <= k < |children| ==> children[k] == children[1..][k - 1];
      r
  }

  /** xmpp_stanza_get_child_by_ns */
  predicate HasChildOfNs(stanza: Stanza, ns: string) {
    exists k :: 0 <= k < |stanza.children| && stanza.children[k].ns == ns
  }

  /** The child has the namespace too. */
  predicate HasChild(stanza: Stanza, name: string, ns: string) {
    var c := ChildByName(stanza.children, name);
    c.Some? && c.value.ns == ns
  }

  /** What a handler is registered for: each filter that is set must fit. */
  predicate Passes(ns: Option<string>, name: Option<string>, kind: Option<string>, stanza: Stanza) {
    && (ns.None? || stanza.ns == ns.value || HasChildOfNs(stanza, ns.value))
    && (name.None? || stanza.name == name.value)
    && (kind.None? || stanza.kind == kind)
  }

  function Lower(c: char): char {
    if 'A' <= c <= 'Z' then (c as int + 32) as char else c
  }

  /** strcasecmp */
  predicate SameIgnoringCase(a: string, b: string) {
    |a| == |b| && forall k :: 0 <= k < |a| ==> Lower(a[k]) == Lower(b[k])
  }

  /** Texts are the same if at each place they have the same character, or one letter in both cases. */
  lemma LettersOfBothCases(a: string, b: string)
    ensures SameIgnoringCase(a, b) <==>
            |a| == |b| && forall k :: 0 <= k < |a| ==>
              || a[k] == b[k]
              || ('A' <= a[k] <= 'Z' && b[k] as int == a[k] as int + 32)
              || ('A' <= b[k] <= 'Z' && a[k] as int == b[k] as int + 32)
  {
  }
}
