/**
 * The chat panel's transcript: realtime-session messages, each a list of
 * content parts, flattened into one row per part that has something to show.
 */
module Transcript {
  import opened Common
  import Strings

  /** A content part: `transcript` and `text` are both optional. */
  datatype Part = Part(transcript: Option<string>, text: Option<string>)

  datatype Message = Message(content: seq<Part>, itemId: string, role: Role)

  /** One displayed row. */
  datatype Entry = Entry(itemId: string, role: Role, text: string)

  /** What the panel shows. */
  datatype View = Placeholder(prompt: string) | Rows(entries: seq<Entry>)

  const EmptyPrompt := "Ask me anything! I'm here to help."

  /** A JavaScript-truthy optional string: present and non-empty. */
  predicate Truthy(s: Option<string>)
  {
    s.Some? && s.value != ""
  }

  /** `part.transcript || part.text`. */
  predicate Shown(p: Part)
  {
    Truthy(p.transcript) || Truthy(p.text)
  }

  /** `part.transcript || part.text || ""`. */
  function Caption(p: Part): (c: string)
    ensures Shown(p) <==> c != ""
    ensures Truthy(p.transcript) ==> c == p.transcript.value
    ensures !Truthy(p.transcript) && Truthy(p.text) ==> c == p.text.value
  {
    if Truthy(p.transcript) then p.transcript.value
    else if Truthy(p.text) then p.text.value
    else ""
  }

  /** The row for part `j` of `m`: id `<itemId>-<j>`, the message's role, the caption. */
  function EntryFor(m: Message, j: nat): Entry
    requires j < |m.content|
  {
    Entry(m.itemId + "-" + Strings.Decimal(j), m.role, Caption(m.content[j]))
  }

  /** The rows of the first `n` parts of `m`. */
  function PartEntries(m: Message, n: nat): (r: seq<Entry>)
    requires n <= |m.content|
    ensures |r| <= n
    ensures forall k :: 0 <= k < |r| ==> r[k].text != ""
  {
    if n == 0 then []
    else PartEntries(m, n - 1) + (if Shown(m.content[n - 1]) then [EntryFor(m, n - 1)] else [])
  }

  /** The rows of all messages, in the order the nested loops produce them. */
  function Flatten(ms: seq<Message>): (r: seq<Entry>)
    ensures |r| <= TotalParts(ms)
    ensures forall k :: 0 <= k < |r| ==> r[k].text != ""
  {
    if ms == [] then []
    else Flatten(ms[..|ms| - 1]) + PartEntries(ms[|ms| - 1], |ms[|ms| - 1].content|)
  }

  /** The `filteredMessages` memo: nested loops over messages and their part indices. */
  method FilteredMessages(messages: seq<Message>) returns (result: seq<Entry>)
    ensures result == Flatten(messages)
  {
    result := [];
    var i := 0;
    while i < |messages|
      invariant 0 <= i <= |messages|
      invariant result == Flatten(messages[..i])
    {
      var message := messages[i];
      var index := 0;
      while index < |message.content|
        invariant 0 <= index <= |message.content|
        invariant result == Flatten(messages[..i]) + PartEntries(message, index)
      {
        if Shown(message.content[index]) {
          result := result + [EntryFor(message, index)];
        }
        index := index + 1;
      }
      assert messages[..i + 1][..i] == messages[..i];
      i := i + 1;
    }
    assert messages[..i] == messages;
  }

  /** The placeholder is chosen when there are no rows. */
  function Render(entries: seq<Entry>): (v: View)
    ensures v.Placeholder? <==> entries == []
    ensures v.Rows? ==> v.entries == entries
    ensures v.Placeholder? ==> v.prompt == EmptyPrompt
  {
    if |entries| == 0 then Placeholder(EmptyPrompt) else Rows(entries)
  }

  // -----------------------------------------------------------------------
  // Reference: enumerate every (message, part) slot, then keep the shown ones

  /** Part `part` of message `msg`. */
  datatype Slot = Slot(msg: nat, part: nat)

  predicate ValidSlot(ms: seq<Message>, s: Slot)
  {
    s.msg < |ms| && s.part < |ms[s.msg].content|
  }

  /** `a` comes before `b`: an earlier message, or the same message and an earlier part. */
  predicate Precedes(a: Slot, b: Slot)
  {
    a.msg < b.msg || (a.msg == b.msg && a.part < b.part)
  }

  function TotalParts(ms: seq<Message>): nat
  {
    if ms == [] then 0 else TotalParts(ms[..|ms| - 1]) + |ms[|ms| - 1].content|
  }

  /** All slots of `ms`, message by message, part by part. */
  function Slots(ms: seq<Message>): (r: seq<Slot>)
    ensures |r| == TotalParts(ms)
    ensures forall k :: 0 <= k < |r| ==> ValidSlot(ms, r[k])
  {
    if ms == [] then []
    else
      var n := |ms| - 1;
      var earlier := Slots(ms[..n]);
      assert forall k :: 0 <= k < |earlier| ==> ValidSlot(ms, earlier[k]) by {
        forall k | 0 <= k < |earlier| ensures ValidSlot(ms, earlier[k]) {
          assert ValidSlot(ms[..n], earlier[k]);
        }
      }
      earlier + seq(|ms[n].content|, j requires 0 <= j => Slot(n, j))
  }

  /** Every slot of `ms` is listed exactly once, in the order `Precedes`. */
  lemma {:induction false} SlotsEnumerate(ms: seq<Message>)
    ensures forall s :: s in Slots(ms) <==> ValidSlot(ms, s)
    ensures forall k, l :: 0 <= k < l < |Slots(ms)| ==> Precedes(Slots(ms)[k], Slots(ms)[l])
  {
    if ms != [] {
      var n := |ms| - 1;
      SlotsEnumerate(ms[..n]);
      var earlier := Slots(ms[..n]);
      var last := seq(|ms[n].content|, j requires 0 <= j => Slot(n, j));
      assert Slots(ms) == earlier + last;
      forall s | ValidSlot(ms, s) ensures s in Slots(ms) {
        if s.msg < n {
          assert ValidSlot(ms[..n], s);
        } else {
          assert last[s.part] == s;
        }
      }
      forall k | 0 <= k < |earlier| ensures earlier[k].msg < n {
        assert ValidSlot(ms[..n], earlier[k]);
      }
    }
  }

  /** The rows of the shown slots, in slot order. */
  function Project(ms: seq<Message>, slots: seq<Slot>): (r: seq<Entry>)
    requires forall k :: 0 <= k < |slots| ==> ValidSlot(ms, slots[k])
    ensures |r| <= |slots|
    ensures forall k :: 0 <= k < |r| ==> r[k].text != ""
  {
    if slots == [] then []
    else
      var s := slots[0];
      assert ValidSlot(ms, s);
      (if Shown(ms[s.msg].content[s.part]) then [EntryFor(ms[s.msg], s.part)] else [])
      + Project(ms, slots[1..])
  }

  lemma {:induction false} ProjectAppend(ms: seq<Message>, a: seq<Slot>, b: seq<Slot>)
    requires forall k :: 0 <= k < |a| ==> ValidSlot(ms, a[k])
    requires forall k :: 0 <= k < |b| ==> ValidSlot(ms, b[k])
    ensures Project(ms, a + b) == Project(ms, a) + Project(ms, b)
    decreases |a|
  {
    if a == [] {
      assert a + b == b;
    } else {
      assert (a + b)[0] == a[0];
      assert (a + b)[1..] == a[1..] + b;
      ProjectAppend(ms, a[1..], b);
    }
  }

  /** Slots only of earlier messages project the same in a longer list. */
  lemma {:induction false} ProjectPrefix(ms: seq<Message>, slots: seq<Slot>)
    requires ms != []
    requires forall k :: 0 <= k < |slots| ==> ValidSlot(ms[..|ms| - 1], slots[k])
    ensures forall k :: 0 <= k < |slots| ==> ValidSlot(ms, slots[k])
    ensures Project(ms, slots) == Project(ms[..|ms| - 1], slots)
    decreases |slots|
  {
    if slots != [] {
      ProjectPrefix(ms, slots[1..]);
    }
  }

  /** The first `n` parts of the last message project to its first `n` rows. */
  lemma {:induction false} ProjectLastMessage(ms: seq<Message>, n: nat)
    requires ms != [] && n <= |ms[|ms| - 1].content|
    ensures var last := |ms| - 1;
      Project(ms, seq(n, j requires 0 <= j => Slot(last, j))) == PartEntries(ms[last], n)
  {
    var last := |ms| - 1;
    if n > 0 {
      ProjectLastMessage(ms, n - 1);
      var a := seq(n - 1, j requires 0 <= j => Slot(last, j));
      assert seq(n, j requires 0 <= j => Slot(last, j)) == a + [Slot(last, n - 1)];
      ProjectAppend(ms, a, [Slot(last, n - 1)]);
    }
  }

  /**
   * The nested loops keep exactly the shown parts, one row each, in slot
   * order: the flattening equals the projection of the slot enumeration.
   */
  lemma {:induction false} FlattenIsProjection(ms: seq<Message>)
    ensures Flatten(ms) == Project(ms, Slots(ms))
  {
    if ms != [] {
      var n := |ms| - 1;
      FlattenIsProjection(ms[..n]);
      var earlier := Slots(ms[..n]);
      var last := seq(|ms[n].content|, j requires 0 <= j => Slot(n, j));
      ProjectPrefix(ms, earlier);
      ProjectAppend(ms, earlier, last);
      ProjectLastMessage(ms, |ms[n].content|);
    }
  }

  /** Each row comes from one shown slot, with that message's id, role and caption. */
  lemma {:induction false} ProjectEntryOrigin(ms: seq<Message>, slots: seq<Slot>, k: nat)
    requires forall i :: 0 <= i < |slots| ==> ValidSlot(ms, slots[i])
    requires k < |Project(ms, slots)|
    ensures exists i :: 0 <= i < |slots| && Shown(ms[slots[i].msg].content[slots[i].part])
                     && Project(ms, slots)[k] == EntryFor(ms[slots[i].msg], slots[i].part)
    decreases |slots|
  {
    var s := slots[0];
    if Shown(ms[s.msg].content[s.part]) {
      if k > 0 {
        ProjectEntryOrigin(ms, slots[1..], k - 1);
        var i :| 0 <= i < |slots[1..]| && Shown(ms[slots[1..][i].msg].content[slots[1..][i].part])
               && Project(ms, slots[1..])[k - 1] == EntryFor(ms[slots[1..][i].msg], slots[1..][i].part);
        assert slots[1..][i] == slots[i + 1];
      }
    } else {
      ProjectEntryOrigin(ms, slots[1..], k);
      var i :| 0 <= i < |slots[1..]| && Shown(ms[slots[1..][i].msg].content[slots[1..][i].part])
             && Project(ms, slots[1..])[k] == EntryFor(ms[slots[1..][i].msg], slots[1..][i].part);
      assert slots[1..][i] == slots[i + 1];
    }
  }

  /** Every shown slot has its row in the projection. */
  lemma {:induction false} ProjectKeepsShown(ms: seq<Message>, slots: seq<Slot>, i: nat)
    requires forall x :: 0 <= x < |slots| ==> ValidSlot(ms, slots[x])
    requires i < |slots| && ValidSlot(ms, slots[i]) && Shown(ms[slots[i].msg].content[slots[i].part])
    ensures EntryFor(ms[slots[i].msg], slots[i].part) in Project(ms, slots)
    decreases |slots|
  {
    if i > 0 {
      ProjectKeepsShown(ms, slots[1..], i - 1);
    }
  }

  /** Nothing is projected exactly when no slot is shown. */
  lemma {:induction false} ProjectEmptyIff(ms: seq<Message>, slots: seq<Slot>)
    requires forall i :: 0 <= i < |slots| ==> ValidSlot(ms, slots[i])
    ensures Project(ms, slots) == [] <==> forall i :: 0 <= i < |slots| ==> !Shown(ms[slots[i].msg].content[slots[i].part])
    decreases |slots|
  {
    if slots != [] {
      ProjectEmptyIff(ms, slots[1..]);
      assert forall i :: 1 <= i < |slots| ==> slots[i] == slots[1..][i - 1];
    }
  }

  /**
   * What the panel shows, stated on the messages: no more rows than parts,
   * every row with non-empty text and an id `<itemId>-<index>` of a shown
   * part, every shown part with its row, and the placeholder exactly when
   * no part of any message is shown.
   */
  lemma TranscriptFacts(ms: seq<Message>)
    ensures |Flatten(ms)| <= TotalParts(ms)
    ensures forall k :: 0 <= k < |Flatten(ms)| ==> Flatten(ms)[k].text != ""
    ensures forall k :: 0 <= k < |Flatten(ms)| ==>
      exists i, j :: 0 <= i < |ms| && 0 <= j < |ms[i].content| && Shown(ms[i].content[j])
                  && Flatten(ms)[k] == EntryFor(ms[i], j)
    ensures forall i, j :: 0 <= i < |ms| && 0 <= j < |ms[i].content| && Shown(ms[i].content[j]) ==>
      EntryFor(ms[i], j) in Flatten(ms)
    ensures Render(Flatten(ms)).Placeholder? <==>
      forall i, j :: 0 <= i < |ms| && 0 <= j < |ms[i].content| ==> !Shown(ms[i].content[j])
  {
    FlattenIsProjection(ms);
    var slots := Slots(ms);
    SlotsEnumerate(ms);
    forall k | 0 <= k < |Flatten(ms)|
      ensures exists i, j :: 0 <= i < |ms| && 0 <= j < |ms[i].content| && Shown(ms[i].content[j])
                          && Flatten(ms)[k] == EntryFor(ms[i], j)
    {
      ProjectEntryOrigin(ms, slots, k);
      var x :| 0 <= x < |slots| && Shown(ms[slots[x].msg].content[slots[x].part])
             && Project(ms, slots)[k] == EntryFor(ms[slots[x].msg], slots[x].part);
      assert ValidSlot(ms, slots[x]);
    }
    forall i, j | 0 <= i < |ms| && 0 <= j < |ms[i].content| && Shown(ms[i].content[j])
      ensures EntryFor(ms[i], j) in Flatten(ms)
    {
      assert Slot(i, j) in slots;
      var x :| 0 <= x < |slots| && slots[x] == Slot(i, j);
      ProjectKeepsShown(ms, slots, x);
    }
    ProjectEmptyIff(ms, slots);
    if Flatten(ms) == [] {
      forall i, j | 0 <= i < |ms| && 0 <= j < |ms[i].content| ensures !Shown(ms[i].content[j]) {
        assert Slot(i, j) in slots;
      }
    }
  }

  /** Rows of different parts of one message have different ids. */
  lemma RowIdsDistinctWithinMessage(m: Message, j1: nat, j2: nat)
    requires j1 < |m.content| && j2 < |m.content| && j1 != j2
    ensures EntryFor(m, j1).itemId != EntryFor(m, j2).itemId
  {
    var p := m.itemId + "-";
    if EntryFor(m, j1).itemId == EntryFor(m, j2).itemId {
      assert (p + Strings.Decimal(j1))[|p|..] == Strings.Decimal(j1);
      assert (p + Strings.Decimal(j2))[|p|..] == Strings.Decimal(j2);
      Strings.DecimalInjective(j1, j2);
    }
  }
}
