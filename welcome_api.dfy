/** The REST handlers of `fastapi.py` on the module-global sentence
    `welcome`: read, replace and clear the whole sentence, and read, insert,
    replace or delete at an index. A rejected request raises HTTP 400 before
    anything is assigned. The path index is a Python `int`, so it may be
    negative. */
module WelcomeApi {
  import opened Wrappers

  /** The sentence the module starts with. */
  const INITIAL_WELCOME: seq<char> := "Welcome to 3ESE API!"

  const INDEX_ERROR: seq<char> := "index out of range"
  const CHAR_ERROR: seq<char> := "char must be exactly 1 character"

  /** What a handler computes: the new sentence, or the 400 detail. */
  datatype Outcome = Done(text: seq<char>) | Rejected(detail: seq<char>)

  /** The JSON bodies the handlers answer with. */
  datatype Body = TextBody(text: seq<char>)
                | LetterBody(index: int, val: char)
                | MessageBody(message: seq<char>)
                | DetailBody(detail: seq<char>)
                | NoBody

  datatype Response = Response(status: nat, body: Body)

  /** `get_letter`'s check and lookup. */
  function Letter(s: seq<char>, index: int): (r: Option<char>)
    ensures r.Some? <==> 0 <= index < |s|
    ensures r.Some? ==> r.value == s[index]
  {
    if index < 0 || index >= |s| then None else Some(s[index])
  }

  /** `insert_text`: any position from 0 to the length, both included. */
  function Insert(s: seq<char>, index: int, text: seq<char>): (r: Outcome)
    ensures r.Done? <==> 0 <= index <= |s|
    ensures r.Rejected? ==> r.detail == INDEX_ERROR
    ensures r.Done? ==>
      |r.text| == |s| + |text|
      && r.text[..index] == s[..index]
      && r.text[index..index + |text|] == text
      && r.text[index + |text|..] == s[index..]
  {
    if index < 0 || index > |s| then Rejected(INDEX_ERROR)
    else
      var t := s[..index] + text + s[index..];
      assert t[..index] == s[..index];
      assert t[index..index + |text|] == text;
      assert t[index + |text|..] == s[index..];
      Done(t)
  }

  /** `patch_letter`: the index is checked first, then the replacement's
      length; only that one position changes. */
  function Patch(s: seq<char>, index: int, ch: seq<char>): (r: Outcome)
    ensures r.Done? <==> 0 <= index < |s| && |ch| == 1
    ensures !(0 <= index < |s|) ==> r == Rejected(INDEX_ERROR)
    ensures 0 <= index < |s| && |ch| != 1 ==> r == Rejected(CHAR_ERROR)
    ensures r.Done? ==>
      |r.text| == |s| && r.text[index] == ch[0]
      && forall j :: 0 <= j < |s| && j != index ==> r.text[j] == s[j]
  {
    if index < 0 || index >= |s| then Rejected(INDEX_ERROR)
    else if |ch| != 1 then Rejected(CHAR_ERROR)
    else Done(s[..index] + ch + s[index + 1..])
  }

  /** `delete_letter`: exactly the character at the index goes. */
  function Delete(s: seq<char>, index: int): (r: Outcome)
    ensures r.Done? <==> 0 <= index < |s|
    ensures r.Rejected? ==> r.detail == INDEX_ERROR
    ensures r.Done? ==>
      |r.text| == |s| - 1
      && r.text[..index] == s[..index]
      && r.text[index..] == s[index + 1..]
  {
    if index < 0 || index >= |s| then Rejected(INDEX_ERROR)
    else
      var t := s[..index] + s[index + 1..];
      assert t[..index] == s[..index];
      assert t[index..] == s[index + 1..];
      Done(t)
  }

  /** The sentence after a handler: the new one, or the old one when the
      request was rejected. */
  function After(s: seq<char>, r: Outcome): seq<char>
  {
    match r
    case Done(t) => t
    case Rejected(_) => s
  }

  /** The answer of a handler that returns the sentence. */
  function Answer(r: Outcome): Response
  {
    match r
    case Done(t) => Response(200, TextBody(t))
    case Rejected(d) => Response(400, DetailBody(d))
  }

  /** Inserting one character and deleting it at the same index gives the
      sentence back. */
  lemma DeleteAfterInsert(s: seq<char>, index: int, c: char)
    requires 0 <= index <= |s|
    ensures Delete(After(s, Insert(s, index, [c])), index) == Done(s)
  {
    var t := After(s, Insert(s, index, [c]));
    assert t[..index] + t[index + 1..] == s;
  }

  /** Deleting a character and inserting it back at the same index gives the
      sentence back. */
  lemma InsertAfterDelete(s: seq<char>, index: int)
    requires 0 <= index < |s|
    ensures Insert(After(s, Delete(s, index)), index, [s[index]]) == Done(s)
  {
    var t := After(s, Delete(s, index));
    assert t[..index] + [s[index]] + t[index..] == s;
  }

  /** After a patch, reading the patched index gives the new character. */
  lemma LetterAfterPatch(s: seq<char>, index: int, c: char)
    requires 0 <= index < |s|
    ensures Letter(After(s, Patch(s, index, [c])), index) == Some(c)
  {
  }

  /** Patching the old character back undoes a patch. */
  lemma PatchUndone(s: seq<char>, index: int, c: char)
    requires 0 <= index < |s|
    ensures Patch(After(s, Patch(s, index, [c])), index, [s[index]]) == Done(s)
  {
    var t := After(s, Patch(s, index, [c]));
    var u := After(t, Patch(t, index, [s[index]]));
    assert u == s;
  }

  /** The inserted text is read back letter by letter at its new place. */
  lemma LettersAfterInsert(s: seq<char>, index: int, text: seq<char>, j: int)
    requires 0 <= index <= |s| && 0 <= j < |text|
    ensures Letter(After(s, Insert(s, index, text)), index + j) == Some(text[j])
  {
    var t := After(s, Insert(s, index, text));
    assert t[index..index + |text|][j] == t[index + j];
  }

  /** After a deletion, the letters after the index move down by one. */
  lemma LettersAfterDelete(s: seq<char>, index: int, j: int)
    requires 0 <= index < |s|
    ensures Letter(After(s, Delete(s, index)), j) == Letter(s, if j < index then j else j + 1)
  {
    var t := After(s, Delete(s, index));
    if 0 <= j < index {
      assert t[..index][j] == s[..index][j];
    } else if index <= j < |t| {
      assert t[index..][j - index] == s[index + 1..][j - index];
    }
  }

  /** The first letter of the initial sentence. */
  lemma InitialLetters()
    ensures |INITIAL_WELCOME| == 20
    ensures Letter(INITIAL_WELCOME, 0) == Some('W')
    ensures Letter(INITIAL_WELCOME, 20) == None
  {
  }

  /** The module's state: the global `welcome`. */
  class Api {
    var welcome: seq<char>

    /** The module is loaded with the initial sentence. */
    constructor ()
      ensures welcome == INITIAL_WELCOME
    {
      welcome := INITIAL_WELCOME;
    }

    /** `get_sentence` (GET /api/welcome/). */
    method GetSentence() returns (resp: Response)
      ensures resp == Response(200, TextBody(welcome))
    {
      resp := Response(200, TextBody(welcome));
    }

    /** `update_sentence` (POST /api/welcome/): replaces the whole sentence. */
    method UpdateSentence(text: seq<char>) returns (resp: Response)
      modifies this
      ensures welcome == text
      ensures resp == Response(202, MessageBody("Sentence updated"))
    {
      welcome := text;
      resp := Response(202, MessageBody("Sentence updated"));
    }

    /** `delete_sentence` (DELETE /api/welcome/): clears the sentence. */
    method DeleteSentence() returns (resp: Response)
      modifies this
      ensures welcome == []
      ensures resp == Response(204, NoBody)
    {
      welcome := "";
      resp := Response(204, NoBody);
    }

    /** `get_letter` (GET /api/welcome/{index}). */
    method GetLetter(index: int) returns (resp: Response)
      ensures Letter(welcome, index).None? ==> resp == Response(400, DetailBody(INDEX_ERROR))
      ensures Letter(welcome, index).Some? ==> resp == Response(200, LetterBody(index, Letter(welcome, index).value))
    {
      if index < 0 || index >= |welcome| {
        return Response(400, DetailBody(INDEX_ERROR));
      }
      resp := Response(200, LetterBody(index, welcome[index]));
    }

    /** `insert_text` (PUT /api/welcome/{index}). */
    method InsertText(index: int, text: seq<char>) returns (resp: Response)
      modifies this
      ensures welcome == After(old(welcome), Insert(old(welcome), index, text))
      ensures resp == Answer(Insert(old(welcome), index, text))
    {
      if index < 0 || index > |welcome| {
        return Response(400, DetailBody(INDEX_ERROR));
      }
      welcome := welcome[..index] + text + welcome[index..];
      resp := Response(200, TextBody(welcome));
    }

    /** `patch_letter` (PATCH /api/welcome/{index}). */
    method PatchLetter(index: int, ch: seq<char>) returns (resp: Response)
      modifies this
      ensures welcome == After(old(welcome), Patch(old(welcome), index, ch))
      ensures resp == Answer(Patch(old(welcome), index, ch))
    {
      if index < 0 || index >= |welcome| {
        return Response(400, DetailBody(INDEX_ERROR));
      }
      if |ch| != 1 {
        return Response(400, DetailBody(CHAR_ERROR));
      }
      welcome := welcome[..index] + ch + welcome[index + 1..];
      resp := Response(200, TextBody(welcome));
    }

    /** `delete_letter` (DELETE /api/welcome/{index}). */
    method DeleteLetter(index: int) returns (resp: Response)
      modifies this
      ensures welcome == After(old(welcome), Delete(old(welcome), index))
      ensures resp == Answer(Delete(old(welcome), index))
    {
      if index < 0 || index >= |welcome| {
        return Response(400, DetailBody(INDEX_ERROR));
      }
      welcome := welcome[..index] + welcome[index + 1..];
      resp := Response(200, TextBody(welcome));
    }
  }
}
