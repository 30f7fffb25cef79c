/** `generate_message`: the two-message conversation sent in one request. The
    three `random.choice` draws become explicit pick indices. */
module Messages {
  import opened Wrappers

  /** One chat message, the dict `{"role": ..., "content": ...}`. */
  datatype Message = Message(role: string, content: string)

  /** The role of the first message, and the one role the second may not take. */
  const UserRole: string := "user"

  /** The roles the second message may take: `[r for r in roles if r != "user"]`,
      an exact and case-sensitive comparison, order kept. */
  function OtherRoles(roles: seq<string>): (r: seq<string>)
    ensures |r| <= |roles|
    ensures forall x :: x in r <==> x in roles && x != UserRole
  {
    if |roles| == 0 then []
    else
      var rest := OtherRoles(roles[1..]);
      assert forall x :: x in roles <==> x == roles[0] || x in roles[1..];
      if roles[0] != UserRole then [roles[0]] + rest else rest
  }

  /** Which `random.choice` met an empty sequence (an IndexError in Python). */
  datatype GenerationError =
    | NoPhrases    // line 75: the phrase list is empty
    | NoOtherRole  // line 78: every role is exactly "user"

  /** A pick stands for `random.choice` over `size` elements: an index in range,
      or anything when there is nothing to choose from. */
  predicate ValidPick(pick: nat, size: nat)
  {
    size == 0 || pick < size
  }

  /** The two messages of one turn. The first is a user message with the phrase
      at `userPick`; the second takes the role at `rolePick` among the roles other
      than "user" and the phrase at `replyPick`. There is no fallback role: when
      no role differs from "user", or there are no phrases, generation fails. */
  function GenerateMessage(roles: seq<string>, phrases: seq<string>, userPick: nat, rolePick: nat, replyPick: nat)
    : (r: Result<seq<Message>, GenerationError>)
    requires ValidPick(userPick, |phrases|) && ValidPick(rolePick, |OtherRoles(roles)|) && ValidPick(replyPick, |phrases|)
    ensures r.Err? <==> |phrases| == 0 || forall x :: x in roles ==> x == UserRole
    ensures r.Err? ==> (r.error == NoPhrases <==> |phrases| == 0)
    ensures r.Ok? ==> |r.value| == 2
    ensures r.Ok? ==> r.value[0] == Message(UserRole, phrases[userPick])
    ensures r.Ok? ==> r.value[1].role in roles && r.value[1].role != UserRole
    ensures r.Ok? ==> r.value[1].content == phrases[replyPick]
  {
    if |phrases| == 0 then Err(NoPhrases)
    else
      var others := OtherRoles(roles);
      if |others| == 0 then
        assert forall x :: x in roles ==> x == UserRole by {
          forall x | x in roles ensures x == UserRole {
            assert x !in others;
          }
        }
        Err(NoOtherRole)
      else
        assert others[0] in roles && others[0] != UserRole;
        Ok([Message(UserRole, phrases[userPick]), Message(others[rolePick], phrases[replyPick])])
  }

  /** Every role other than "user" can be drawn for the second message. */
  lemma EveryOtherRoleCanReply(roles: seq<string>, phrases: seq<string>, role: string)
    requires |phrases| > 0 && role in roles && role != UserRole
    ensures exists k ::
              && 0 <= k < |OtherRoles(roles)|
              && GenerateMessage(roles, phrases, 0, k, 0) == Ok([Message(UserRole, phrases[0]), Message(role, phrases[0])])
  {
    var others := OtherRoles(roles);
    var k :| 0 <= k < |others| && others[k] == role;
    assert GenerateMessage(roles, phrases, 0, k, 0) == Ok([Message(UserRole, phrases[0]), Message(role, phrases[0])]);
  }

  /** The exclusion is case-sensitive: "User" is a role like any other. */
  lemma CapitalisedUserMayReply()
    ensures GenerateMessage(["User"], ["hi"], 0, 0, 0) == Ok([Message("user", "hi"), Message("User", "hi")])
  {
  }

  /** No fallback: a role list holding only "user" makes generation fail. */
  lemma OnlyUserRoleFails(phrases: seq<string>)
    requires |phrases| > 0
    ensures GenerateMessage(["user", "user"], phrases, 0, 0, 0) == Err(NoOtherRole)
  {
  }
}
