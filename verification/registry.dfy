/** The voice-session registry's pure parts: the deterministic user id a
    session is attributed to, the user record created for it when absent,
    and removal of a session from the registry's insertion order. */
module Registry {
  import opened AuctionData

  const VOICE_USER_PREFIX: string := "voice_user_"

  /** The phone number with every '+' and '-' removed (two `replace` calls). */
  function StripPhone(phone: string): (r: string)
    ensures |r| <= |phone|
    ensures forall c :: c in r <==> c in phone && c != '+' && c != '-'
  {
    if phone == [] then []
    else (if phone[0] == '+' || phone[0] == '-' then [] else [phone[0]]) + StripPhone(phone[1..])
  }

  /** Removing the separators a second time removes nothing more. */
  lemma {:induction false} StripPhoneIdempotent(phone: string)
    ensures StripPhone(StripPhone(phone)) == StripPhone(phone)
  {
    if phone != [] {
      StripPhoneIdempotent(phone[1..]);
      var rest := StripPhone(phone[1..]);
      if phone[0] != '+' && phone[0] != '-' {
        var kept := [phone[0]] + rest;
        assert kept[0] == phone[0] && kept[1..] == rest;
        assert StripPhone(kept) == [phone[0]] + StripPhone(rest);
      } else {
        assert StripPhone(phone) == [] + rest == rest;
      }
    }
  }

  /** Separators are removed character by character, in place: stripping
      keeps every other character and the order of what it keeps. */
  lemma {:induction false} StripPhoneKeepsOrder(front: string, back: string)
    ensures StripPhone(front + back) == StripPhone(front) + StripPhone(back)
    ensures |front| == 1 ==> StripPhone(front) == if front[0] == '+' || front[0] == '-' then [] else front
  {
    if front != [] {
      var head := if front[0] == '+' || front[0] == '-' then [] else [front[0]];
      var whole := front + back;
      assert whole[0] == front[0] && whole[1..] == front[1..] + back;
      assert StripPhone(whole) == head + StripPhone(front[1..] + back);
      StripPhoneKeepsOrder(front[1..], back);
      Regrouped(head, StripPhone(front[1..]), StripPhone(back));
    } else {
      assert front + back == back;
    }
  }

  /** The user a session is attributed to: derived from the phone number when
      there is one, from the session id otherwise. */
  function VoiceUserId(phone: string, sessionId: string): (r: string)
    ensures |r| >= |VOICE_USER_PREFIX| && r[..|VOICE_USER_PREFIX|] == VOICE_USER_PREFIX
    ensures forall c :: c in r[|VOICE_USER_PREFIX|..] && phone != "" ==> c != '+' && c != '-'
    ensures r[|VOICE_USER_PREFIX|..] == if phone != "" then StripPhone(phone) else sessionId
  {
    if phone != "" then VOICE_USER_PREFIX + StripPhone(phone) else VOICE_USER_PREFIX + sessionId
  }

  /** Two callers with phone numbers are the same user, whichever session
      they call from, exactly when their numbers differ only in '+' and '-'
      separators; without a phone number each session id is a user of its
      own. */
  lemma VoiceUserIdIdentifiesCaller(phone1: string, phone2: string, session1: string, session2: string)
    ensures phone1 != "" && phone2 != "" ==>
      (VoiceUserId(phone1, session1) == VoiceUserId(phone2, session2) <==> StripPhone(phone1) == StripPhone(phone2))
    ensures phone1 == "" && phone2 == "" ==>
      (VoiceUserId(phone1, session1) == VoiceUserId(phone2, session2) <==> session1 == session2)
  {
    var id1, id2 := VoiceUserId(phone1, session1), VoiceUserId(phone2, session2);
    if id1 == id2 {
      assert id1[|VOICE_USER_PREFIX|..] == id2[|VOICE_USER_PREFIX|..];
    }
  }

  /** The display name of a new voice user: the phone number, or the first
      eight characters of the session id. */
  function VoiceUserName(phone: string, sessionId: string): string {
    if phone != "" then "Voice User (" + phone + ")"
    else "Voice User " + sessionId[..if |sessionId| < 8 then |sessionId| else 8]
  }

  /** The users after a session start: the session's user is created, with an
      empty history, only when absent; an existing user is never replaced. */
  function WithVoiceUser(users: map<string, User>, phone: string, sessionId: string): (r: map<string, User>)
    ensures r.Keys == users.Keys + {VoiceUserId(phone, sessionId)}
    ensures forall u :: u in users ==> r[u] == users[u]
    ensures VoiceUserId(phone, sessionId) !in users ==>
      var u := r[VoiceUserId(phone, sessionId)];
      && u.id == VoiceUserId(phone, sessionId) && u.name == VoiceUserName(phone, sessionId) && u.phone == phone
      && u.biddingHistory == [] && u.totalSpent == 0.0 && u.activeBids == []
  {
    var id := VoiceUserId(phone, sessionId);
    if id in users then users
    else users[id := User(id, VoiceUserName(phone, sessionId), phone, [], 0.0, [])]
  }

  /** The registry's insertion order once `s` is popped. */
  function Without(order: seq<string>, s: string): (r: seq<string>)
    ensures forall x :: x in r <==> x in order && x != s
    ensures Distinct(order) ==> Distinct(r)
    ensures s !in order ==> r == order
  {
    if order == [] then []
    else
      var rest := Without(order[1..], s);
      assert Distinct(order) ==> order[0] !in order[1..];
      if order[0] == s then rest else [order[0]] + rest
  }

  /** Popping a session keeps the others in their insertion order: removal
      works run by run, and (by Without's own contract) a single entry is
      dropped exactly when it is `s`. */
  lemma {:induction false} WithoutKeepsOrder(front: seq<string>, back: seq<string>, s: string)
    ensures Without(front + back, s) == Without(front, s) + Without(back, s)
  {
    if front != [] {
      var head := if front[0] == s then [] else [front[0]];
      assert Without(front + back, s) == head + Without(front[1..] + back, s) by {
        var whole := front + back;
        assert whole[0] == front[0] && whole[1..] == front[1..] + back;
      }
      WithoutKeepsOrder(front[1..], back, s);
      Regrouped(head, Without(front[1..], s), Without(back, s));
    } else {
      assert front + back == back;
    }
  }
}
