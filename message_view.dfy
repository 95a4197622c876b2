/**
 * One rendered chat message (src/components/Message.tsx): the effect that keeps
 * the displayed text in step with a streaming message, and two helpers of its
 * code-block renderer.
 */
module MessageView {
  import opened Types
  import opened Text

  /** `s.slice(n)` for `n >= 0`: the characters from position `n` on, empty past the end. */
  function SliceFrom(s: string, n: nat): (r: string)
    ensures n <= |s| ==> s == s[..n] + r
    ensures n >= |s| ==> r == ""
  {
    if n <= |s| then s[n..] else ""
  }

  /**
   * The displayed text after one run of the effect. A message that is not
   * streaming, or is the user's, shows its content outright; a streaming reply
   * keeps what it shows and appends the part of the content beyond that length.
   */
  function NextDisplayed(displayed: string, content: string, isStreaming: bool, isUser: bool): (r: string)
    ensures !isStreaming || isUser ==> r == content
    ensures isStreaming && !isUser ==> displayed <= r
    ensures isStreaming && !isUser && displayed <= content ==> r == content
    ensures isStreaming && !isUser && |content| <= |displayed| ==> r == displayed
  {
    if !isStreaming || isUser then content
    else
      var newContent := SliceFrom(content, |displayed|);
      if newContent != "" then displayed + newContent else displayed
  }

  /** A second run with the same content changes nothing, whatever was displayed before. */
  lemma EffectIdempotent(displayed: string, content: string, isStreaming: bool, isUser: bool)
    ensures var once := NextDisplayed(displayed, content, isStreaming, isUser);
            NextDisplayed(once, content, isStreaming, isUser) == once
  {
    var once := NextDisplayed(displayed, content, isStreaming, isUser);
    if isStreaming && !isUser && |displayed| < |content| {
      assert once == displayed + content[|displayed|..];
      assert |once| == |content|;
    }
  }

  /** The displayed text after runs of the effect on a streaming reply, one per content in order. */
  function Replay(displayed: string, contents: seq<string>): string
    decreases |contents|
  {
    if contents == [] then displayed else NextDisplayed(Replay(displayed, DropLast(contents)), Last(contents), true, false)
  }

  /** Each content extends the one before it, starting from `start`. */
  predicate Growing(start: string, contents: seq<string>) {
    && (contents != [] ==> start <= contents[0])
    && forall i :: 0 < i < |contents| ==> contents[i - 1] <= contents[i]
  }

  /**
   * While the content only grows, the displayed text never falls behind or
   * diverges: after every run it equals the content of that run.
   */
  lemma {:induction false} ReplayTracksGrowingContent(start: string, contents: seq<string>)
    requires contents != []
    requires Growing(start, contents)
    ensures Replay(start, contents) == Last(contents)
    decreases |contents|
  {
    var front := DropLast(contents);
    if front != [] {
      assert Growing(start, front) by {
        forall i | 0 < i < |front| ensures front[i - 1] <= front[i] {
          assert contents[i - 1] <= contents[i];
        }
      }
      ReplayTracksGrowingContent(start, front);
      assert Last(front) == contents[|contents| - 2];
      assert contents[|contents| - 2] <= contents[|contents| - 1];
    } else {
      assert Replay(start, front) == start;
      assert start <= contents[0];
    }
  }

  /** The state of one message component: the displayed text and the content last seen. */
  class MessageView {
    var displayedContent: string
    var contentRef: string

    constructor (message: Message)
      ensures displayedContent == "" && contentRef == message.content
    {
      displayedContent := "";
      contentRef := message.content;
    }

    /** The displayed-content effect, run for `message` with its streaming flag. */
    method RunEffect(message: Message, isStreaming: bool)
      modifies this
      ensures displayedContent == NextDisplayed(old(displayedContent), message.content, isStreaming, message.role == Role.User)
      ensures contentRef == message.content
    {
      var isUser := message.role == Role.User;
      if !isStreaming || isUser {
        displayedContent := message.content;
        contentRef := message.content;
        return;
      }
      var newContent := SliceFrom(message.content, |displayedContent|);
      if newContent != "" {
        displayedContent := displayedContent + newContent;
      }
      contentRef := message.content;
    }
  }

  /** The code text handed to the highlighter: `String(children).replace(/\n$/, '')`. */
  function CodeContent(code: string): (r: string)
    ensures r == code || r + "\n" == code
    ensures |code| >= 1 && code[|code| - 1] == '\n' ==> r + "\n" == code
    ensures !(|code| >= 1 && code[|code| - 1] == '\n') ==> r == code
  {
    if |code| >= 1 && code[|code| - 1] == '\n' then code[..|code| - 1] else code
  }

  /** Only one line break is removed: a block ending in two keeps one. */
  lemma CodeContentStripsOnce(s: string)
    ensures CodeContent(s + "\n\n") == s + "\n"
  {
    assert (s + "\n\n")[..|s| + 1] == s + "\n";
  }

  datatype BadgeColor = Blue | Yellow | Green | Gray

  /** The colour of a code block's language badge. */
  function LanguageBadge(language: string): (c: BadgeColor)
    ensures c == Blue <==> language == "typescript"
    ensures c == Yellow <==> language == "javascript"
    ensures c == Green <==> language == "python"
    ensures c == Gray <==> language != "typescript" && language != "javascript" && language != "python"
  {
    if language == "typescript" then Blue
    else if language == "javascript" then Yellow
    else if language == "python" then Green
    else Gray
  }

  /** The Tailwind background class of a badge colour: `bg-<colour>-500`. */
  function BadgeClass(c: BadgeColor): (r: string)
    ensures |r| >= 7 && r[..3] == "bg-" && r[|r| - 4..] == "-500"
  {
    match c
    case Blue => "bg-blue-500"
    case Yellow => "bg-yellow-500"
    case Green => "bg-green-500"
    case Gray => "bg-gray-500"
  }

  /** Each colour has a class of its own, so the four badges look different. */
  lemma BadgeClassDistinct(c: BadgeColor, d: BadgeColor)
    ensures BadgeClass(c) == BadgeClass(d) <==> c == d
  {
    if c != d {
      var x, y := BadgeClass(c), BadgeClass(d);
      assert x[5] != y[5];
    }
  }
}
