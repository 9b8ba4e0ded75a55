/** The login form, as do_request takes it from the body of a POST. */
module LoginForm {
  import opened CStrings
  import opened HttpParser
  import opened HttpBody
  import opened HttpChunking
  import opened HttpLines
  import opened HttpResponse
  import opened HttpStall
  import opened Wrappers

  /** The sizes of do_request's name[100] and password[100]. */
  const FIELD: nat := 100
  const USER: string := "user="
  const PASSWORD: string := "&password="

  predicate IsAmp(c: char) { c == '&' }

  /** Name and password out of the memory from m_string on; None where the loops run past
      that memory or write past an array. */
  function Decode(mem: seq<char>): Option<(string, string)> {
    if |mem| < 5 then None
    else
      var amp := First(mem, 5, IsAmp);
      if amp == |mem| || amp - 5 >= FIELD || amp + 10 > |mem| then None
      else
        var end := First(mem, amp + 10, IsNul);
        if end == |mem| || end - (amp + 10) >= FIELD then None
        else Some((CStr(mem[5..amp] + [NUL], 0), mem[amp + 10..end]))
  }

  /** What the page posts. */
  function Form(name: string, password: string): string {
    USER + name + PASSWORD + password
  }

  ghost predicate Decodable(name: string, password: string) {
    && '&' !in name && NUL !in name && NUL !in password
    && |name| < FIELD && |password| < FIELD
  }

  lemma FormParts(name: string, password: string, beyond: seq<char>)
    ensures var mem := Form(name, password) + [NUL] + beyond;
            var a := 5 + |name|;
            && |mem| >= a + 11 + |password| && mem[5..a] == name && mem[a] == '&'
            && mem[a + 10..a + 10 + |password|] == password && mem[a + 10 + |password|] == NUL
  {
    var mem := Form(name, password) + [NUL] + beyond;
    var a := 5 + |name|;
    assert mem == USER + (name + (PASSWORD + (password + ([NUL] + beyond))));
    assert mem[5..a] == name;
    assert mem[a..a + 10] == PASSWORD;
    assert mem[a] == mem[a..a + 10][0];
    assert mem[a + 10..a + 10 + |password|] == password;
  }

  /** Of a name, CStr keeps all exactly when it holds no NUL. */
  lemma WholeName(name: string)
    ensures CStr(name + [NUL], 0) == name <==> NUL !in name
  {
    if NUL !in name {
      assert (name + [NUL])[0..0 + |name|] == name;
      CStrIs(name + [NUL], 0, name);
    }
  }

  /** The loops recover a name and a password exactly when neither holds a NUL, the name
      no '&', and both fit their arrays; whatever the memory behind the body holds. */
  lemma FormReadBackExactly(name: string, password: string, beyond: seq<char>)
    ensures Decode(Form(name, password) + [NUL] + beyond) == Some((name, password))
            <==> Decodable(name, password)
  {
    var mem := Form(name, password) + [NUL] + beyond;
    FormParts(name, password, beyond);
    hide Form;
    var a := 5 + |name|;
    if Decodable(name, password) {
      assert forall k :: 5 <= k < a ==> mem[k] == name[k - 5] != '&';
      FirstIs(mem, 5, IsAmp, a);
      assert forall k :: a + 10 <= k < a + 10 + |password| ==>
          mem[k] == mem[a + 10..a + 10 + |password|][k - (a + 10)];
      FirstIs(mem, a + 10, IsNul, a + 10 + |password|);
      WholeName(name);
    } else if Decode(mem) == Some((name, password)) {
      DecodedIsDecodable(mem);
    }
  }

  /** What comes out of the loops is never outside the family that goes in. */
  lemma DecodedIsDecodable(mem: seq<char>)
    requires Decode(mem).Some?
    ensures Decodable(Decode(mem).value.0, Decode(mem).value.1)
  {
    var amp := First(mem, 5, IsAmp);
    assert forall k :: 5 <= k < amp ==> mem[k] != '&';
    var end := First(mem, amp + 10, IsNul);
    assert forall k :: amp + 10 <= k < end ==> mem[k] != NUL;
    var field := mem[5..amp] + [NUL];
    assert field[|field| - 1] == NUL;
    assert forall c <- CStr(field, 0) :: c in mem[5..amp];
  }

  /** The first loop: the name up to the '&' at i, or the end of the memory or of the
      array. */
  method CopyName(m_string: array<char>, name: array<char>) returns (i: nat)
    requires m_string.Length >= 5 && name.Length == FIELD && m_string != name
    modifies name
    ensures 5 <= i <= First(m_string[..], 5, IsAmp) && i - 5 <= FIELD
    ensures i - 5 < FIELD ==> i == First(m_string[..], 5, IsAmp)
    ensures name[..i - 5] == m_string[5..i]
  {
    ghost var amp := First(m_string[..], 5, IsAmp);
    i := 5;
    while i - 5 < FIELD && i < m_string.Length && m_string[i] != '&'
      invariant 5 <= i <= amp && i - 5 <= FIELD
      invariant name[..i - 5] == m_string[5..i]
    {
      name[i - 5] := m_string[i];
      i := i + 1;
    }
  }

  /** The second loop, from offset i on: the length of the password, or the end of the
      memory or of the array. */
  method CopyPassword(m_string: array<char>, i: nat, password: array<char>) returns (j: nat)
    requires i <= m_string.Length && password.Length == FIELD && m_string != password
    modifies password
    ensures j <= FIELD && i + j <= First(m_string[..], i, IsNul)
    ensures j < FIELD ==> i + j == First(m_string[..], i, IsNul)
    ensures password[..j] == m_string[i..i + j]
  {
    ghost var end := First(m_string[..], i, IsNul);
    j := 0;
    while j < FIELD && i + j < m_string.Length && m_string[i + j] != NUL
      invariant j <= FIELD && i + j <= end
      invariant password[..j] == m_string[i..i + j]
    {
      password[j] := m_string[i + j];
      j := j + 1;
    }
  }

  /** Both loops of do_request, over the memory that starts at m_string; name and password
      are the two local arrays.  Not ok stands for a run that leaves one of the three. */
  method DecodeInPlace(m_string: array<char>, name: array<char>, password: array<char>) returns (ok: bool)
    requires name.Length == FIELD && password.Length == FIELD && name != password
    requires m_string != name && m_string != password
    modifies name, password
    ensures ok <==> Decode(m_string[..]).Some?
    ensures ok ==> Decode(m_string[..]).value == (CStr(name[..], 0), CStr(password[..], 0))
  {
    hide First, CStr;
    ghost var mem := m_string[..];
    if m_string.Length < 5 {
      return false;
    }
    var i := CopyName(m_string, name);
    if i - 5 >= FIELD || i == m_string.Length || i + 10 > m_string.Length {
      return false;
    }
    name[i - 5] := NUL;
    NameHeld(name[..], mem[5..i]);
    i := i + 10;
    var j := CopyPassword(m_string, i, password);
    ok := j < FIELD && i + j < m_string.Length;
    if ok {
      password[j] := NUL;
      NameHeld(password[..], mem[i..i + j]);
      WholeName(mem[i..i + j]);
    }
  }

  lemma NameHeld(field: seq<char>, s: string)
    requires |s| < |field| && field[..|s|] == s && field[|s|] == NUL
    ensures CStr(field, 0) == CStr(s + [NUL], 0)
  {
    assert field == s + [NUL] + field[|s| + 1..];
    CStrStable(s + [NUL], field[|s| + 1..], 0);
  }

  // --- from the socket to the name ---------------------------------------------------------

  /** A form posted behind any head that announces its length reaches the loops whole, also
      with other bytes behind it in the buffer: the request is complete, it is still the one of
      the head, and what the loops take from m_string on are the name and the password typed,
      exactly when these are decodable; `beyond` is the memory behind the buffer. */
  lemma LoginUnderstoodExactly(head: seq<char>, name: string, password: string, more: seq<char>, beyond: seq<char>)
    requires |head| + |Form(name, password)| + |more| <= READ_BUFFER_SIZE
    requires |head| + |Form(name, password)| < READ_BUFFER_SIZE
    requires var p := HeaderPhase(Receive(Fresh(), head));
             p.AtBody? && p.conn.rest == [] && p.conn.contentLength == |Form(name, password)|
    ensures var (code, d) := ProcessRead(Receive(Fresh(), head + Form(name, password) + more));
            var h := HeaderPhase(Receive(Fresh(), head)).conn;
            && code == GET_REQUEST && d == h.(rest := d.rest, body := Some(|head|)) && ReadIdx(d) <= READ_BUFFER_SIZE
            && (Decode(Memory(d)[|head|..] + beyond) == Some((name, password)) <==> Decodable(name, password))
  {
    hide HeaderPhase, ProcessRead, Receive, Decode, Decodable, Form, Memory;
    var form := Form(name, password);
    ReceiveKeepsInv(Fresh(), head + form + more);
    BodyOfRequest(head, form, more);
    var m := Memory(ProcessRead(Receive(Fresh(), head + form + more)).1);
    var behind := m[|head| + |form| + 1..] + beyond;
    Behind(m[|head|..], form, beyond);
    assert m[|head|..][|form| + 1..] == m[|head| + |form| + 1..];
    FormReadBackExactly(name, password, behind);
  }

  lemma Behind(m: seq<char>, form: seq<char>, beyond: seq<char>)
    requires |form| < |m| && m[..|form| + 1] == form + [NUL]
    ensures m + beyond == form + [NUL] + (m[|form| + 1..] + beyond)
  {
    assert m == m[..|form| + 1] + m[|form| + 1..];
  }

  /** So it is behind a request line with a plain path and the headers of the length: the page
      is then that of the path. */
  lemma PostedLoginUnderstood(path: string, name: string, password: string, more: seq<char>, beyond: seq<char>)
    requires Word(path) && PlainText(path) && path[0] == '/'
    requires |PostHead(path, |Form(name, password)|)| + |Form(name, password)| + |more| <= READ_BUFFER_SIZE
    requires |PostHead(path, |Form(name, password)|)| + |Form(name, password)| < READ_BUFFER_SIZE
    ensures var form := Form(name, password);
            var (code, d) := ProcessRead(Receive(Fresh(), PostHead(path, |form|) + form + more));
            && code == GET_REQUEST && d.cgi && d.url.Some? && Holds(d.done, d.url.value, Page(path))
            && d.body.Some? && d.body.value <= ReadIdx(d) <= READ_BUFFER_SIZE
            && (Decode(Memory(d)[d.body.value..] + beyond) == Some((name, password)) <==> Decodable(name, password))
  {
    var n := |Form(name, password)|;
    assert n > 0 by { FormParts(name, password, []); }
    hide PostHead, HeaderPhase, ProcessRead, Word, PlainText, Holds, Decode, Decodable, Form, Receive, Memory;
    assert PostHead(path, n) + [] == PostHead(path, n);
    PostHeadRead(path, n, []);
    LoginUnderstoodExactly(PostHead(path, n), name, password, more, beyond);
  }
}
