/** The live discussion panel of a sport page: the rules for sending a chat
    message and the message list that realtime inserts append to. The store
    and its realtime channel are outside the model: a fetch result and each
    pushed row are parameters. */
module LiveChat {
  import opened Common

  datatype ChatMessage = ChatMessage(id: string, message: string, username: string, createdAt: string)

  /** The row `handleSend` inserts. */
  datatype ChatRow = ChatRow(sportId: string, message: string, username: string)

  const Anonymous := "Anonymous"

  /** A string the browser treats as false in a condition once trimmed. */
  predicate Blank(s: string) {
    Trim(s) == []
  }

  /** The name a message is sent under: the trimmed name, or `Anonymous`. */
  function FinalUsername(username: string): (r: string)
    ensures r != []
    ensures !Blank(username) ==> r == Trim(username)
    ensures Blank(username) ==> r == Anonymous
  {
    var t := Trim(username);
    if t != [] then t else Anonymous
  }

  /** The row a send inserts: nothing for a blank message, otherwise the
      trimmed message under the final name, for this view's sport. */
  function SendPayload(newMessage: string, username: string, sportId: string): (r: Option<ChatRow>)
    ensures r.None? <==> Blank(newMessage)
    ensures r.Some? ==> r.value.message == Trim(newMessage) && r.value.message != []
    ensures r.Some? ==> r.value.username == FinalUsername(username) && r.value.sportId == sportId
  {
    if Blank(newMessage) then None
    else Some(ChatRow(sportId, Trim(newMessage), FinalUsername(username)))
  }

  /** The name a send writes to local storage: only a non-blank one, trimmed. */
  function PersistedName(newMessage: string, username: string): (r: Option<string>)
    ensures r.Some? <==> !Blank(newMessage) && !Blank(username)
    ensures r.Some? ==> r.value == Trim(username) && r.value == FinalUsername(username)
  {
    if Blank(newMessage) || Blank(username) then None else Some(Trim(username))
  }

  /** A string with no white space at either end is its own trimmed form. */
  lemma TrimmedIsFixed(s: string)
    requires s == [] || (!IsSpace(s[0]) && !IsSpace(s[|s| - 1]))
    ensures Trim(s) == s
  {
    if s != [] {
      assert LeadingSpace(s) == 0;
      assert s[0..] == s;
      assert TrailingSpace(s) == 0;
    }
  }

  /** The inserted message and name are already trimmed: sending the row's
      text again would insert the same row. */
  lemma PayloadIsTrimmed(newMessage: string, username: string, sportId: string)
    requires !Blank(newMessage)
    ensures var row := SendPayload(newMessage, username, sportId).value;
            Trim(row.message) == row.message
            && SendPayload(row.message, username, sportId) == Some(row)
  {
    TrimmedIsFixed(Trim(newMessage));
  }

  /** The name stored by one send is the name a later send uses. */
  lemma PersistedNameIsReused(newMessage: string, username: string, later: string, sportId: string)
    requires PersistedName(newMessage, username).Some? && !Blank(later)
    ensures SendPayload(later, PersistedName(newMessage, username).value, sportId).value.username
              == FinalUsername(username)
  {
    TrimmedIsFixed(Trim(username));
  }

  /** `if (stored) setUsername(stored)`: an empty stored value is ignored. */
  function InitialUsername(stored: Option<string>): (r: string)
    ensures stored.Some? && stored.value != [] ==> r == stored.value
    ensures stored.None? || stored.value == [] ==> r == []
  {
    match stored
    case Some(s) => s
    case None => []
  }

  /** One mounted chat panel. */
  class ChatView {
    const sportId: string
    var messages: seq<ChatMessage>
    var newMessage: string
    var username: string
    var isLoading: bool
    /** The value under the stored-username key of local storage. */
    var storedName: Option<string>

    constructor (sportId: string, stored: Option<string>)
      ensures this.sportId == sportId && messages == [] && newMessage == []
      ensures username == InitialUsername(stored) && isLoading && storedName == stored
    {
      this.sportId := sportId;
      messages := [];
      newMessage := [];
      username := InitialUsername(stored);
      isLoading := true;
      storedName := stored;
    }

    /** The initial fetch: a returned list replaces the messages; loading ends either way. */
    method Load(data: Option<seq<ChatMessage>>)
      modifies this
      ensures messages == (if data.Some? then data.value else old(messages))
      ensures !isLoading
      ensures newMessage == old(newMessage) && username == old(username) && storedName == old(storedName)
    {
      if data.Some? {
        messages := data.value;
      }
      isLoading := false;
    }

    /** A realtime insert: appended at the end, earlier messages untouched. */
    method Push(m: ChatMessage)
      modifies this
      ensures messages == old(messages) + [m]
      ensures newMessage == old(newMessage) && username == old(username)
      ensures isLoading == old(isLoading) && storedName == old(storedName)
    {
      messages := messages + [m];
    }

    method Type(text: string)
      modifies this
      ensures newMessage == text
      ensures messages == old(messages) && username == old(username)
      ensures isLoading == old(isLoading) && storedName == old(storedName)
    {
      newMessage := text;
    }

    method TypeName(text: string)
      modifies this
      ensures username == text
      ensures messages == old(messages) && newMessage == old(newMessage)
      ensures isLoading == old(isLoading) && storedName == old(storedName)
    {
      username := text;
    }

    /** `handleSend` up to the awaited insert: a blank message does nothing;
        otherwise a non-blank name is stored and the row to insert is
        returned. The input is cleared only when the insert returns
        (`CompleteSend`), and nothing disables sending meanwhile. */
    method StartSend() returns (row: Option<ChatRow>)
      modifies this
      ensures row == SendPayload(old(newMessage), old(username), sportId)
      ensures storedName == (if PersistedName(old(newMessage), old(username)).Some?
                             then PersistedName(old(newMessage), old(username)) else old(storedName))
      ensures newMessage == old(newMessage)
      ensures messages == old(messages) && username == old(username) && isLoading == old(isLoading)
    {
      if Trim(newMessage) == [] {
        return None;
      }
      var finalUsername := Trim(username);
      if finalUsername == [] {
        finalUsername := Anonymous;
      }
      if Trim(username) != [] {
        storedName := Some(finalUsername);
      }
      row := Some(ChatRow(sportId, Trim(newMessage), finalUsername));
    }

    /** `setNewMessage('')` once the insert has returned, whatever its result,
        and whatever was typed while it was in flight. */
    method CompleteSend()
      modifies this
      ensures newMessage == []
      ensures messages == old(messages) && username == old(username)
      ensures isLoading == old(isLoading) && storedName == old(storedName)
    {
      newMessage := [];
    }

    /** One send whose insert returns before anything else happens: the row
        inserted, if any; a sent message clears the input, a blank one
        changes nothing. The list itself only grows through `Push`. */
    method Send() returns (row: Option<ChatRow>)
      modifies this
      ensures row == SendPayload(old(newMessage), old(username), sportId)
      ensures newMessage == (if row.Some? then [] else old(newMessage))
      ensures storedName == (if PersistedName(old(newMessage), old(username)).Some?
                             then PersistedName(old(newMessage), old(username)) else old(storedName))
      ensures messages == old(messages) && username == old(username) && isLoading == old(isLoading)
    {
      row := StartSend();
      if row.Some? {
        CompleteSend();
      }
    }

    /** Enter pressed again while the first insert is still in flight: the
        input has not been cleared, so the same row is inserted twice. */
    method StartTwice() returns (first: Option<ChatRow>, second: Option<ChatRow>)
      modifies this
      ensures first == SendPayload(old(newMessage), old(username), sportId)
      ensures second == first
      ensures newMessage == old(newMessage) && messages == old(messages) && username == old(username)
    {
      first := StartSend();
      second := StartSend();
    }
  }
}
