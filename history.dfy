/**
 * The history store (src/context/ChatHistoryContext.tsx): a list of saved
 * conversations and the current one, changed only through its four operations.
 */
module History {
  import opened Types

  /** `s.filter((_, i) => i !== index)` restricted to the positions from `from` on. */
  function FilterFrom<T>(s: seq<T>, from: nat, index: int): seq<T>
    requires from <= |s|
    decreases |s| - from
  {
    if from == |s| then [] else (if from != index then [s[from]] else []) + FilterFrom(s, from + 1, index)
  }

  /** `s.filter((_, i) => i !== index)`: drop the element at position `index`, if there is one. */
  function DeleteAt<T>(s: seq<T>, index: int): seq<T> {
    FilterFrom(s, 0, index)
  }

  lemma {:induction false} FilterFromSpec<T>(s: seq<T>, from: nat, index: int)
    requires from <= |s|
    ensures FilterFrom(s, from, index) == if from <= index < |s| then s[from..index] + s[index + 1..] else s[from..]
    decreases |s| - from
  {
    if from < |s| {
      FilterFromSpec(s, from + 1, index);
      var rest := FilterFrom(s, from + 1, index);
      if from == index {
        assert FilterFrom(s, from, index) == rest;
        assert s[from..index] + s[index + 1..] == s[from + 1..];
      } else {
        assert FilterFrom(s, from, index) == [s[from]] + rest;
        if from < index < |s| {
          assert rest == s[from + 1..index] + s[index + 1..];
          assert s[from..index] == [s[from]] + s[from + 1..index];
        } else {
          assert rest == s[from + 1..];
          assert s[from..] == [s[from]] + s[from + 1..];
        }
      }
    }
  }

  /**
   * Deleting at a valid position removes exactly that element, keeping the
   * others in order; at any other index nothing changes.
   */
  lemma DeleteAtSpec<T>(s: seq<T>, index: int)
    ensures 0 <= index < |s| ==> DeleteAt(s, index) == s[..index] + s[index + 1..]
    ensures 0 <= index < |s| ==>
              && |DeleteAt(s, index)| == |s| - 1
              && forall j :: 0 <= j < |s| - 1 ==> DeleteAt(s, index)[j] == (if j < index then s[j] else s[j + 1])
    ensures !(0 <= index < |s|) ==> DeleteAt(s, index) == s
  {
    FilterFromSpec(s, 0, index);
    assert s[0..] == s;
    if 0 <= index < |s| {
      var r := DeleteAt(s, index);
      var front, back := s[..index], s[index + 1..];
      assert r == front + back;
      forall j | 0 <= j < |s| - 1 ensures r[j] == (if j < index then s[j] else s[j + 1]) {
        if j < index {
          assert r[j] == front[j];
        } else {
          assert r[j] == back[j - index];
        }
      }
    }
  }

  class ChatHistory {
    var conversations: seq<seq<Message>>
    var currentConversation: seq<Message>

    constructor ()
      ensures conversations == [] && currentConversation == []
    {
      conversations, currentConversation := [], [];
    }

    method SetCurrentConversation(messages: seq<Message>)
      modifies this
      ensures currentConversation == messages && conversations == old(conversations)
    {
      currentConversation := messages;
    }

    method AddConversation(messages: seq<Message>)
      modifies this
      ensures conversations == old(conversations) + [messages]
      ensures currentConversation == old(currentConversation)
    {
      conversations := conversations + [messages];
    }

    method ClearHistory()
      modifies this
      ensures conversations == [] && currentConversation == []
    {
      conversations := [];
      currentConversation := [];
    }

    method DeleteConversation(index: int)
      modifies this
      ensures conversations == DeleteAt(old(conversations), index)
      ensures 0 <= index < |old(conversations)| ==>
                conversations == old(conversations)[..index] + old(conversations)[index + 1..]
      ensures !(0 <= index < |old(conversations)|) ==> conversations == old(conversations)
      ensures currentConversation == old(currentConversation)
    {
      DeleteAtSpec(conversations, index);
      conversations := DeleteAt(conversations, index);
    }
  }
}
