/**
 The migration tool: users, groups and memberships are posted to the server with
 prompts on failure, and a second run finds nothing left to do.
 */
module Migration {
  import opened Basics
  import opened Text

  // ---------- Both sides ----------

  datatype LdapUser = LdapUser(id: string, dn: string)
  datatype LdapGroup = LdapGroup(name: string, members: seq<string>)
  datatype LldapGroup = LldapGroup(id: nat, name: string, users: set<string>)

  datatype Server = Server(users: seq<string>, groups: seq<LldapGroup>, nextId: nat)

  datatype Post =
    | CreateUser(user: string)
    | CreateGroup(name: string)
    | AddMember(user: string, group: nat)

  function WithMember(groups: seq<LldapGroup>, user: string, id: nat): (r: seq<LldapGroup>)
    ensures |r| == |groups|
    ensures forall i :: 0 <= i < |groups| ==>
                          r[i] == if groups[i].id == id then groups[i].(users := groups[i].users + {user}) else groups[i]
  {
    seq(|groups|, i requires 0 <= i < |groups| =>
      if groups[i].id == id then groups[i].(users := groups[i].users + {user}) else groups[i])
  }

  /** What a successful request does on the server; user ids are stored in lower case. */
  function Apply(s: Server, p: Post): Server {
    match p
    case CreateUser(user) => s.(users := s.users + [Lower(user)])
    case CreateGroup(name) => s.(groups := s.groups + [LldapGroup(s.nextId, name, {})], nextId := s.nextId + 1)
    case AddMember(user, id) => s.(groups := WithMember(s.groups, user, id))
  }

  function ApplyAll(s: Server, posts: seq<Post>): Server {
    if posts == [] then s else Apply(ApplyAll(s, posts[..|posts| - 1]), posts[|posts| - 1])
  }

  lemma {:induction false} ApplyAllConcat(s: Server, a: seq<Post>, b: seq<Post>)
    ensures ApplyAll(s, a + b) == ApplyAll(ApplyAll(s, a), b)
    decreases |b|
  {
    if b == [] {
      assert a + b == a;
    } else {
      ApplyAllConcat(s, a, b[..|b| - 1]);
      assert (a + b)[..|a + b| - 1] == a + b[..|b| - 1];
    }
  }

  // ---------- What there is to post ----------

  // get_users_to_add
  function NewUsers(users: seq<LdapUser>, existing: seq<string>): seq<LdapUser> {
    if users == [] then []
    else
      var front, last := users[..|users| - 1], users[|users| - 1];
      if last.id in existing then NewUsers(front, existing) else NewUsers(front, existing) + [last]
  }

  function UserPosts(users: seq<LdapUser>): (r: seq<Post>)
    ensures |r| == |users|
    ensures forall i :: 0 <= i < |users| ==> r[i] == CreateUser(users[i].id)
  {
    seq(|users|, i requires 0 <= i < |users| => CreateUser(users[i].id))
  }

  predicate HasName(groups: seq<LldapGroup>, name: string) {
    exists i :: 0 <= i < |groups| && groups[i].name == name
  }

  // The groups insert_groups_into_lldap filters for before it starts.
  function GroupPosts(groups: seq<LdapGroup>, existing: seq<LldapGroup>): (r: seq<Post>)
    ensures forall p :: p in r ==> p.CreateGroup?
  {
    if groups == [] then []
    else
      var front, last := groups[..|groups| - 1], groups[|groups| - 1];
      if HasName(existing, last.name) then GroupPosts(front, existing)
      else GroupPosts(front, existing) + [CreateGroup(last.name)]
  }

  // Collecting into a hash map keeps the last entry of a key.
  function FindGroup(groups: seq<LldapGroup>, name: string): Option<LldapGroup> {
    if groups == [] then None
    else if groups[|groups| - 1].name == name then Some(groups[|groups| - 1])
    else FindGroup(groups[..|groups| - 1], name)
  }

  function Resolve(users: seq<LdapUser>, dn: string): Option<string> {
    if users == [] then None
    else if users[|users| - 1].dn == dn then Some(users[|users| - 1].id)
    else Resolve(users[..|users| - 1], dn)
  }

  /** A member DN that stands for a known user not yet in the group. */
  predicate IsMissing(users: seq<LdapUser>, existing: seq<string>, group: LldapGroup, dn: string) {
    var user := Resolve(users, dn);
    user.Some? && user.value !in group.users && user.value in existing
  }

  function MemberPosts(users: seq<LdapUser>, existing: seq<string>, group: LldapGroup, members: seq<string>): seq<Post> {
    if members == [] then []
    else
      var front, last := members[..|members| - 1], members[|members| - 1];
      var posts := MemberPosts(users, existing, group, front);
      if IsMissing(users, existing, group, last) then posts + [AddMember(Resolve(users, last).value, group.id)] else posts
  }

  function MembershipPosts(users: seq<LdapUser>, groups: seq<LdapGroup>, existing: seq<string>, known: seq<LldapGroup>): seq<Post> {
    if groups == [] then []
    else
      var front, last := groups[..|groups| - 1], groups[|groups| - 1];
      var posts := MembershipPosts(users, front, existing, known);
      match FindGroup(known, last.name)
      case None => posts
      case Some(group) => posts + MemberPosts(users, existing, group, last.members)
  }

  // ---------- Requests with prompts ----------

  datatype Answer = Skip | Retry | SkipGroup | SkipAll | Abort

  /** How a request turns out; on failure the operator is asked, unless asking has been muted. */
  datatype Reply = Works | Fails(answer: Answer)

  /** A request that was sent, and what the operator answered if asked about it. */
  datatype Attempt = Attempt(post: Post, worked: bool, answer: Option<Answer>)

  function Successes(attempts: seq<Attempt>): seq<Post> {
    if attempts == [] then []
    else
      var front, last := attempts[..|attempts| - 1], attempts[|attempts| - 1];
      if last.worked then Successes(front) + [last.post] else Successes(front)
  }

  lemma {:induction false} SuccessesConcat(a: seq<Attempt>, b: seq<Attempt>)
    ensures Successes(a + b) == Successes(a) + Successes(b)
    decreases |b|
  {
    if b == [] {
      assert a + b == a;
    } else {
      SuccessesConcat(a, b[..|b| - 1]);
      assert (a + b)[..|a + b| - 1] == a + b[..|b| - 1];
    }
  }

  /** a is b with some elements left out. */
  ghost predicate IsSubsequence(a: seq<Post>, b: seq<Post>)
    decreases |b|
  {
    || a == []
    || (&& b != []
        && var b', y := b[..|b| - 1], b[|b| - 1];
           IsSubsequence(a, b') || (a[|a| - 1] == y && IsSubsequence(a[..|a| - 1], b')))
  }

  lemma {:induction false} SubsequenceGrows(a: seq<Post>, b: seq<Post>, c: seq<Post>)
    requires IsSubsequence(a, b)
    ensures IsSubsequence(a, b + c)
    decreases |c|
  {
    if c == [] {
      assert b + c == b;
    } else {
      SubsequenceGrows(a, b, c[..|c| - 1]);
      assert (b + c)[..|b + c| - 1] == b + c[..|c| - 1];
    }
  }

  lemma {:induction false} SubsequenceConcat(a: seq<Post>, b: seq<Post>, c: seq<Post>, d: seq<Post>)
    requires IsSubsequence(a, b) && IsSubsequence(c, d)
    ensures IsSubsequence(a + c, b + d)
    decreases |d|
  {
    if c == [] {
      assert a + c == a;
      SubsequenceGrows(a, b, d);
    } else {
      var c', d' := c[..|c| - 1], d[..|d| - 1];
      assert (b + d)[..|b + d| - 1] == b + d';
      if IsSubsequence(c, d') {
        SubsequenceConcat(a, b, c, d');
      } else {
        SubsequenceConcat(a, b, c', d');
        assert (a + c)[..|a + c| - 1] == a + c';
      }
    }
  }

  /** The requests made for a list of things to post: none other, each successful at most once and
      in order, and, unless the operator aborted, each tried at least once. */
  ghost predicate Serves(made: seq<Attempt>, wanted: seq<Post>, complete: bool) {
    && (forall a :: a in made ==> a.post in wanted)
    && IsSubsequence(Successes(made), wanted)
    && (complete ==> forall p :: p in wanted ==> Tried(made, p))
  }

  ghost predicate Tried(made: seq<Attempt>, p: Post) {
    exists a :: a in made && a.post == p
  }

  lemma ServesConcat(made: seq<Attempt>, done: seq<Post>, more: seq<Attempt>, next: seq<Post>, complete: bool)
    requires Serves(made, done, true) && Serves(more, next, complete)
    ensures Serves(made + more, done + next, complete)
    ensures Successes(made + more) == Successes(made) + Successes(more)
  {
    SuccessesConcat(made, more);
    SubsequenceConcat(Successes(made), done, Successes(more), next);
    if complete {
      forall p | p in done + next
        ensures Tried(made + more, p)
      {
        if p in done {
          var a :| a in made && a.post == p;
          assert a in made + more;
        } else {
          var a :| a in more && a.post == p;
          assert a in made + more;
        }
      }
    }
  }

  lemma ServesPrefix(made: seq<Attempt>, done: seq<Post>, wanted: seq<Post>)
    requires Serves(made, done, false) && done <= wanted
    ensures Serves(made, wanted, false)
  {
    SubsequenceGrows(Successes(made), done, wanted[|done|..]);
    assert wanted == done + wanted[|done|..];
  }

  /** A stretch of a run: from one server state to another by the requests made for the things
      wanted. `calm` when no request fails. */
  ghost predicate Stretch(start: Server, now: Server, made: seq<Attempt>, wanted: seq<Post>, complete: bool, calm: bool) {
    && Serves(made, wanted, complete)
    && now == ApplyAll(start, Successes(made))
    && (calm ==> complete && Successes(made) == wanted)
  }

  lemma NoStretch(s: Server, calm: bool)
    ensures Stretch(s, s, [], [], true, calm)
  {
  }

  lemma StretchConcat(start: Server, mid: Server, now: Server, made: seq<Attempt>, done: seq<Post>,
                      more: seq<Attempt>, next: seq<Post>, complete: bool, calm: bool)
    requires Stretch(start, mid, made, done, true, calm) && Stretch(mid, now, more, next, complete, calm)
    ensures Stretch(start, now, made + more, done + next, complete, calm)
    ensures Successes(made + more) == Successes(made) + Successes(more)
    ensures Successes(more) == [] ==> Successes(made + more) == Successes(made)
    ensures |Successes(made + more)| == |Successes(made)| + |Successes(more)|
  {
    ServesConcat(made, done, more, next, complete);
    ApplyAllConcat(start, Successes(made), Successes(more));
  }

  // ---------- Answers are obeyed ----------

  ghost predicate Unasked(made: seq<Attempt>) {
    forall i :: 0 <= i < |made| ==> made[i].answer == None
  }

  /** Answers after which nothing more is to be asked; `inGroup` while serving one group. */
  predicate Silences(answer: Option<Answer>, inGroup: bool) {
    answer == Some(SkipAll) || (inGroup && answer == Some(SkipGroup))
  }

  ghost predicate Silenced(made: seq<Attempt>, inGroup: bool) {
    exists i :: 0 <= i < |made| && Silences(made[i].answer, inGroup)
  }

  ghost predicate Obeys(made: seq<Attempt>, inGroup: bool) {
    forall i, j :: 0 <= i < j < |made| && Silences(made[i].answer, inGroup) ==> made[j].answer == None
  }

  lemma ObeysConcat(made: seq<Attempt>, more: seq<Attempt>, inGroup: bool)
    requires Obeys(made, inGroup) && Obeys(more, inGroup)
    requires Silenced(made, inGroup) ==> Unasked(more)
    ensures Obeys(made + more, inGroup)
    ensures Silenced(made + more, inGroup) <==> Silenced(made, inGroup) || Silenced(more, inGroup)
    ensures Unasked(made) && Unasked(more) ==> Unasked(made + more)
  {
    var all := made + more;
    assert forall i :: 0 <= i < |made| ==> all[i] == made[i];
    assert forall i :: 0 <= i < |more| ==> all[|made| + i] == more[i];
    if Silenced(more, inGroup) {
      var i :| 0 <= i < |more| && Silences(more[i].answer, inGroup);
      assert Silences(all[|made| + i].answer, inGroup);
    }
    forall i, j | 0 <= i < j < |all| && Silences(all[i].answer, inGroup)
      ensures all[j].answer == None
    {
      if i >= |made| {
        assert all[i] == more[i - |made|] && all[j] == more[j - |made|];
      }
    }
  }

  lemma SilencedInGroup(made: seq<Attempt>)
    ensures Silenced(made, false) ==> Silenced(made, true)
    ensures Obeys(made, true) ==> Obeys(made, false)
  {
    if i :| 0 <= i < |made| && Silences(made[i].answer, false) {
      assert Silences(made[i].answer, true);
    }
    assert forall i :: 0 <= i < |made| && Silences(made[i].answer, false) ==> Silences(made[i].answer, true);
  }

  datatype Verdict = Done | Skipped | SkippedGroup | SkippedAll | Aborted

  /** What a reply decides; nothing if the operator wants another try. */
  function VerdictOf(reply: Reply, muted: bool): Option<Verdict> {
    if reply.Works? then Some(Done)
    else if muted then Some(Skipped)
    else match reply.answer
      case Skip => Some(Skipped)
      case Retry => None
      case SkipGroup => Some(SkippedGroup)
      case SkipAll => Some(SkippedAll)
      case Abort => Some(Aborted)
  }

  function AnswerTo(reply: Reply, muted: bool): Option<Answer> {
    if reply.Works? || muted then None else Some(reply.answer)
  }

  function AnswerFor(verdict: Verdict, muted: bool): Option<Answer> {
    match verdict
    case Done => None
    case Skipped => if muted then None else Some(Skip)
    case SkippedGroup => Some(SkipGroup)
    case SkippedAll => Some(SkipAll)
    case Aborted => Some(Abort)
  }

  /** The tries for one thing: failures with the answer Retry, and a last one that decides. */
  ghost predicate TriesOf(made: seq<Attempt>, p: Post, verdict: Verdict, muted: bool) {
    && made != [] && AllFailed(made[..|made| - 1], p)
    && made[|made| - 1] == Attempt(p, verdict == Done, AnswerFor(verdict, muted))
    && (muted ==> |made| == 1 && (verdict == Done || verdict == Skipped))
  }

  /** The operator has called it off. */
  ghost predicate CalledOff(made: seq<Attempt>) {
    made != [] && (made[|made| - 1].answer == Some(Abort) || CalledOff(made[..|made| - 1]))
  }

  lemma {:induction false} CalledOffExact(made: seq<Attempt>)
    ensures CalledOff(made) <==> exists a :: a in made && a.answer == Some(Abort)
  {
    if made != [] {
      var front, last := made[..|made| - 1], made[|made| - 1];
      CalledOffExact(front);
      assert made == front + [last];
    }
  }

  lemma {:induction false} CalledOffConcat(made: seq<Attempt>, more: seq<Attempt>)
    ensures CalledOff(made + more) <==> CalledOff(made) || CalledOff(more)
    decreases |more|
  {
    if more == [] {
      assert made + more == made;
    } else {
      CalledOffConcat(made, more[..|more| - 1]);
      assert (made + more)[..|made + more| - 1] == made + more[..|more| - 1];
    }
  }

  lemma {:induction false} NotCalledOff(made: seq<Attempt>, p: Post)
    requires AllFailed(made, p)
    ensures !CalledOff(made)
  {
    if made != [] {
      NotCalledOff(made[..|made| - 1], p);
    }
  }

  lemma TriesCalledOff(made: seq<Attempt>, p: Post, verdict: Verdict, muted: bool)
    requires TriesOf(made, p, verdict, muted)
    ensures CalledOff(made) <==> verdict == Aborted
  {
    NotCalledOff(made[..|made| - 1], p);
  }

  lemma TriesObey(made: seq<Attempt>, p: Post, verdict: Verdict, muted: bool, inGroup: bool)
    requires TriesOf(made, p, verdict, muted)
    ensures Obeys(made, inGroup) && (muted ==> Unasked(made))
    ensures Silenced(made, inGroup) <==> verdict == SkippedAll || (inGroup && verdict == SkippedGroup)
  {
    assert forall i :: 0 <= i < |made| - 1 ==> made[i] == made[..|made| - 1][i];
    assert Silences(AnswerFor(verdict, muted), inGroup) ==> Silences(made[|made| - 1].answer, inGroup);
  }

  /** Where the questions stand after some requests: asked no more once silenced, be it from the
      outset, by an answer about this group or by an answer about all. */
  ghost predicate Heeds(made: seq<Attempt>, inGroup: bool, outset: bool, silenced: bool, all: bool) {
    && Obeys(made, inGroup) && (outset ==> Unasked(made))
    && (silenced <==> outset || Silenced(made, inGroup))
    && (all <==> outset || Silenced(made, false))
  }

  lemma HeedsStep(made: seq<Attempt>, more: seq<Attempt>, inGroup: bool, outset: bool, silenced: bool, all: bool,
                  p: Post, verdict: Verdict)
    requires Heeds(made, inGroup, outset, silenced, all) && TriesOf(more, p, verdict, silenced)
    ensures Heeds(made + more, inGroup, outset,
                  silenced || verdict == SkippedAll || (inGroup && verdict == SkippedGroup),
                  all || verdict == SkippedAll)
  {
    TriesObey(more, p, verdict, silenced, inGroup);
    TriesObey(more, p, verdict, silenced, false);
    ObeysConcat(made, more, inGroup);
    SilencedInGroup(made);
    ObeysConcat(made, more, false);
  }

  class GraphQLClient {
    var server: Server
    var replies: seq<Reply>     // the replies to the next requests; all later requests work

    constructor (server: Server, replies: seq<Reply>)
      ensures this.server == server && this.replies == replies
    {
      this.server, this.replies := server, replies;
    }

    /** The retry loop around one request. */
    method PostOne(p: Post, muted: bool) returns (verdict: Verdict, made: seq<Attempt>)
      modifies this
      ensures Stretch(old(server), server, made, [p], true, old(replies) == [])
      ensures Successes(made) == if verdict == Done then [p] else []
      ensures server == if verdict == Done then Apply(old(server), p) else old(server)
      ensures TriesOf(made, p, verdict, muted)
      ensures old(replies) == [] ==> verdict == Done && replies == []
    {
      made := [];
      while true
        invariant AllFailed(made, p) && (muted ==> made == [])
        invariant server == old(server)
        invariant old(replies) == [] ==> replies == []
        decreases |replies|
      {
        var reply := if replies == [] then Works else replies[0];
        replies := if replies == [] then [] else replies[1..];
        OneTry(server, made, p, reply, muted);
        made := made + [Attempt(p, reply.Works?, AnswerTo(reply, muted))];
        var decided := VerdictOf(reply, muted);
        if decided.Some? {
          server := if reply.Works? then Apply(server, p) else server;
          return decided.value, made;
        }
      }
    }

    /** One thing after another: the request for the next one, in its place in the run so far. */
    method PostNext(p: Post, sofar: seq<Attempt>, inGroup: bool, silenced: bool, skipAll: bool,
                    ghost start: Server, ghost done: seq<Post>, ghost calm: bool, ghost outset: bool)
      returns (verdict: Verdict, made: seq<Attempt>)
      requires Stretch(start, server, sofar, done, true, calm) && (calm ==> replies == [])
      requires Heeds(sofar, inGroup, outset, silenced, skipAll) && !CalledOff(sofar)
      modifies this
      ensures Stretch(start, server, made, done + [p], true, calm) && (calm ==> replies == [])
      ensures Heeds(made, inGroup, outset,
                    silenced || verdict == SkippedAll || (inGroup && verdict == SkippedGroup),
                    skipAll || verdict == SkippedAll)
      ensures Successes(made) == if verdict == Done then Successes(sofar) + [p] else Successes(sofar)
      ensures |Successes(made)| == if verdict == Done then |Successes(sofar)| + 1 else |Successes(sofar)|
      ensures server == if verdict == Done then Apply(old(server), p) else old(server)
      ensures calm ==> verdict == Done
      ensures CalledOff(made) == (verdict == Aborted)
    {
      var more;
      verdict, more := PostOne(p, silenced);
      StretchConcat(start, old(server), server, sofar, done, more, [p], true, calm);
      HeedsStep(sofar, more, inGroup, outset, silenced, skipAll, p, verdict);
      TriesCalledOff(more, p, verdict, silenced);
      CalledOffConcat(sofar, more);
      made := sofar + more;
    }

    /** insert_users_into_lldap */
    method InsertUsers(users: seq<LdapUser>, existing: seq<string>)
      returns (ok: bool, known: seq<string>, added: nat, made: seq<Attempt>)
      modifies this
      ensures Stretch(old(server), server, made, UserPosts(users), ok, old(replies) == [])
      ensures added == |Successes(made)| && known == KnownAfter(existing, Successes(made))
      ensures Obeys(made, false)
      ensures ok == !CalledOff(made)
      ensures old(replies) == [] ==> replies == []
    {
      ghost var wanted, calm, start := UserPosts(users), replies == [], server;
      known, added, made := existing, 0, [];
      var skipAll := false;
      NoStretch(server, calm);
      assert wanted[..0] == [];
      for i := 0 to |users|
        invariant Stretch(start, server, made, wanted[..i], true, calm) && (calm ==> replies == [])
        invariant Heeds(made, false, false, skipAll, skipAll)
        invariant !CalledOff(made)
        invariant added == |Successes(made)| && known == KnownAfter(existing, Successes(made))
      {
        KnownGrows(existing, Successes(made), wanted[i]);
        TakeNext(wanted, i);
        var verdict;
        verdict, made := PostNext(CreateUser(users[i].id), made, false, skipAll, skipAll, start, wanted[..i], calm, false);
        if verdict == Done {
          added := added + 1;
          known := known + [Lower(users[i].id)];
        } else if verdict == Aborted {
          ServesPrefix(made, wanted[..i + 1], wanted);
          return false, known, added, made;
        } else if verdict == SkippedAll {
          skipAll := true;
        }
      }
      assert wanted[..|users|] == wanted;
      ok := true;
    }

    /** insert_groups_into_lldap */
    method InsertGroups(groups: seq<LdapGroup>, existing: seq<LldapGroup>)
      returns (ok: bool, known: seq<LldapGroup>, added: nat, made: seq<Attempt>)
      modifies this
      ensures Stretch(old(server), server, made, GroupPosts(groups, existing), ok, old(replies) == [])
      ensures added == |Successes(made)|
      ensures known == KnownGroupsAfter(existing, old(server.nextId), Successes(made))
      ensures Obeys(made, false)
      ensures ok == !CalledOff(made)
      ensures old(replies) == [] ==> replies == []
    {
      var wanted := GroupPosts(groups, existing);
      ghost var calm, start := replies == [], server;
      known, added, made := existing, 0, [];
      var skipAll := false;
      NoStretch(server, calm);
      assert wanted[..0] == [];
      for i := 0 to |wanted|
        invariant Stretch(start, server, made, wanted[..i], true, calm) && (calm ==> replies == [])
        invariant Heeds(made, false, false, skipAll, skipAll)
        invariant !CalledOff(made)
        invariant added == |Successes(made)| && server.nextId == start.nextId + added
        invariant known == KnownGroupsAfter(existing, start.nextId, Successes(made))
      {
        var id := server.nextId;   // what the response carries
        assert wanted[i] in wanted;
        KnownGroupsGrow(existing, start.nextId, Successes(made), wanted[i], id);
        TakeNext(wanted, i);
        var verdict;
        verdict, made := PostNext(wanted[i], made, false, skipAll, skipAll, start, wanted[..i], calm, false);
        if verdict == Done {
          added := added + 1;
          known := known + [LldapGroup(id, wanted[i].name, {})];
        } else if verdict == Aborted {
          ServesPrefix(made, wanted[..i + 1], wanted);
          return false, known, added, made;
        } else if verdict == SkippedAll {
          skipAll := true;
        }
      }
      assert wanted[..|wanted|] == wanted;
      ok := true;
    }

    /** The loop over the members of one group; `muted` once the operator skips all. */
    method InsertMembers(users: seq<LdapUser>, existing: seq<string>, group: LldapGroup, members: seq<string>, skipAll: bool)
      returns (ok: bool, muted: bool, added: nat, made: seq<Attempt>)
      modifies this
      ensures Stretch(old(server), server, made, MemberPosts(users, existing, group, members), ok, old(replies) == [])
      ensures added == |Successes(made)|
      ensures Obeys(made, true) && (skipAll ==> Unasked(made)) && (muted <==> skipAll || Silenced(made, false))
      ensures ok == !CalledOff(made)
      ensures old(replies) == [] ==> replies == []
    {
      ghost var wanted, calm, start := MemberPosts(users, existing, group, members), replies == [], server;
      muted, added, made := skipAll, 0, [];
      var skipGroup := false;
      NoStretch(server, calm);
      assert members[..0] == [];
      for i := 0 to |members|
        invariant Stretch(start, server, made, MemberPosts(users, existing, group, members[..i]), true, calm)
        invariant calm ==> replies == []
        invariant Heeds(made, true, skipAll, muted || skipGroup, muted)
        invariant !CalledOff(made)
        invariant added == |Successes(made)|
      {
        MemberPostsStep(users, existing, group, members, i);
        if IsMissing(users, existing, group, members[i]) {
          ghost var done := MemberPosts(users, existing, group, members[..i]);
          var p := AddMember(Resolve(users, members[i]).value, group.id);
          var verdict;
          verdict, made := PostNext(p, made, true, muted || skipGroup, muted, start, done, calm, skipAll);
          match verdict {
            case Done => added := added + 1;
            case Skipped =>
            case SkippedGroup => skipGroup := true;
            case SkippedAll => muted := true;
            case Aborted =>
              ServesPrefix(made, done + [p], wanted);
              return false, muted, added, made;
          }
        }
      }
      assert members[..|members|] == members;
      ok := true;
    }

    /** insert_group_memberships_into_lldap */
    method InsertMemberships(users: seq<LdapUser>, groups: seq<LdapGroup>, existing: seq<string>, known: seq<LldapGroup>)
      returns (ok: bool, added: nat, made: seq<Attempt>)
      modifies this
      ensures Stretch(old(server), server, made, MembershipPosts(users, groups, existing, known), ok, old(replies) == [])
      ensures added == |Successes(made)|
      ensures Obeys(made, false)
      ensures ok == !CalledOff(made)
      ensures old(replies) == [] ==> replies == []
    {
      ghost var wanted, calm, start := MembershipPosts(users, groups, existing, known), replies == [], server;
      added, made := 0, [];
      var skipAll := false;
      NoStretch(server, calm);
      assert groups[..0] == [];
      for i := 0 to |groups|
        invariant Stretch(start, server, made, MembershipPosts(users, groups[..i], existing, known), true, calm)
        invariant added == |Successes(made)|
        invariant Obeys(made, false) && (skipAll <==> Silenced(made, false)) && !CalledOff(made)
        invariant calm ==> replies == []
      {
        MembershipPostsPrefix(users, groups, existing, known, i);
        var found := FindGroup(known, groups[i].name);
        if found.Some? {
          ghost var mid, done := server, MembershipPosts(users, groups[..i], existing, known);
          ghost var next := MemberPosts(users, existing, found.value, groups[i].members);
          var fine, muted, count, more := InsertMembers(users, existing, found.value, groups[i].members, skipAll);
          StretchConcat(start, mid, server, made, done, more, next, fine, calm);
          SilencedInGroup(more);
          ObeysConcat(made, more, false);
          CalledOffConcat(made, more);
          made, added, skipAll := made + more, added + count, muted;
          if !fine {
            ServesPrefix(made, done + next, wanted);
            return false, added, made;
          }
        }
      }
      assert groups[..|groups|] == groups;
      ok := true;
    }
  }

  function KnownGroupsAfter(existing: seq<LldapGroup>, nextId: nat, posts: seq<Post>): seq<LldapGroup> {
    if posts == [] then existing
    else
      var front, last := posts[..|posts| - 1], posts[|posts| - 1];
      var known := KnownGroupsAfter(existing, nextId, front);
      if last.CreateGroup? then known + [LldapGroup(nextId + |front|, last.name, {})] else known
  }

  lemma KnownGroupsGrow(existing: seq<LldapGroup>, nextId: nat, posts: seq<Post>, p: Post, id: nat)
    requires p.CreateGroup? && id == nextId + |posts|
    ensures KnownGroupsAfter(existing, nextId, posts + [p])
            == KnownGroupsAfter(existing, nextId, posts) + [LldapGroup(id, p.name, {})]
  {
    assert (posts + [p])[..|posts|] == posts;
  }

  lemma {:induction false} MemberPostsStep(users: seq<LdapUser>, existing: seq<string>, group: LldapGroup, members: seq<string>, i: nat)
    requires i < |members|
    ensures MemberPosts(users, existing, group, members[..i + 1]) <= MemberPosts(users, existing, group, members)
    ensures IsMissing(users, existing, group, members[i]) ==>
              MemberPosts(users, existing, group, members[..i + 1])
              == MemberPosts(users, existing, group, members[..i]) + [AddMember(Resolve(users, members[i]).value, group.id)]
    ensures !IsMissing(users, existing, group, members[i]) ==>
              MemberPosts(users, existing, group, members[..i + 1]) == MemberPosts(users, existing, group, members[..i])
  {
    assert members[..i + 1][..i] == members[..i];
    MemberPostsPrefix(users, existing, group, members, i + 1);
  }

  ghost predicate AllFailed(made: seq<Attempt>, p: Post) {
    forall i :: 0 <= i < |made| ==> made[i] == Attempt(p, false, Some(Retry))
  }

  lemma {:induction false} NoSuccesses(made: seq<Attempt>, p: Post)
    requires AllFailed(made, p)
    ensures Successes(made) == []
  {
    if made != [] {
      NoSuccesses(made[..|made| - 1], p);
    }
  }

  lemma ServesOne(s: Server, made: seq<Attempt>, p: Post, worked: bool)
    requires made != [] && forall a :: a in made ==> a.post == p
    requires Successes(made) == if worked then [p] else []
    ensures Stretch(s, if worked then Apply(s, p) else s, made, [p], true, worked)
  {
    assert made[0] in made;
    assert Tried(made, p);
    assert [p][..0] == [] && IsSubsequence([], [p][..0]);
    assert ApplyAll(s, [p]) == Apply(ApplyAll(s, []), p);
  }

  lemma LastTry(s: Server, made: seq<Attempt>, p: Post, worked: bool, answer: Option<Answer>)
    requires AllFailed(made, p)
    ensures var all := made + [Attempt(p, worked, answer)];
            && Successes(all) == (if worked then [p] else [])
            && Stretch(s, if worked then Apply(s, p) else s, all, [p], true, worked)
            && (!worked && answer == Some(Retry) ==> AllFailed(all, p))
  {
    var all := made + [Attempt(p, worked, answer)];
    NoSuccesses(made, p);
    assert all[..|all| - 1] == made;
    ServesOne(s, all, p, worked);
  }

  lemma Decided(made: seq<Attempt>, p: Post, verdict: Verdict, muted: bool)
    requires AllFailed(made, p)
    requires muted ==> made == [] && (verdict == Done || verdict == Skipped)
    ensures TriesOf(made + [Attempt(p, verdict == Done, AnswerFor(verdict, muted))], p, verdict, muted)
  {
    var all := made + [Attempt(p, verdict == Done, AnswerFor(verdict, muted))];
    assert all[..|all| - 1] == made;
  }

  /** One more try after some failed ones either decides or leaves it open. */
  lemma OneTry(s: Server, made: seq<Attempt>, p: Post, reply: Reply, muted: bool)
    requires AllFailed(made, p) && (muted ==> made == [])
    ensures var all := made + [Attempt(p, reply.Works?, AnswerTo(reply, muted))];
            var decided := VerdictOf(reply, muted);
            if decided == None then AllFailed(all, p) && !muted
            else
              && TriesOf(all, p, decided.value, muted)
              && Successes(all) == (if decided.value == Done then [p] else [])
              && Stretch(s, if decided.value == Done then Apply(s, p) else s, all, [p], true, decided.value == Done)
  {
    LastTry(s, made, p, reply.Works?, AnswerTo(reply, muted));
    var decided := VerdictOf(reply, muted);
    if decided.Some? {
      Decided(made, p, decided.value, muted);
      assert AnswerFor(decided.value, muted) == AnswerTo(reply, muted);
    }
  }

  lemma {:induction false} MemberPostsPrefix(users: seq<LdapUser>, existing: seq<string>, group: LldapGroup, members: seq<string>, i: nat)
    requires i <= |members|
    ensures MemberPosts(users, existing, group, members[..i]) <= MemberPosts(users, existing, group, members)
  {
    if i < |members| {
      MemberPostsPrefix(users, existing, group, members[..|members| - 1], i);
      assert members[..|members| - 1][..i] == members[..i];
    } else {
      assert members[..i] == members;
    }
  }

  lemma {:induction false} MembershipPostsPrefix(users: seq<LdapUser>, groups: seq<LdapGroup>, existing: seq<string>, known: seq<LldapGroup>, i: nat)
    requires i < |groups|
    ensures MembershipPosts(users, groups[..i + 1], existing, known) <= MembershipPosts(users, groups, existing, known)
    ensures var found := FindGroup(known, groups[i].name);
            var done := MembershipPosts(users, groups[..i], existing, known);
            MembershipPosts(users, groups[..i + 1], existing, known)
            == if found.Some? then done + MemberPosts(users, existing, found.value, groups[i].members) else done
  {
    assert groups[..i + 1][..i] == groups[..i];
    if i + 1 < |groups| {
      MembershipPostsPrefix(users, groups[..|groups| - 1], existing, known, i);
      assert groups[..|groups| - 1][..i + 1] == groups[..i + 1];
      assert groups[..|groups| - 1][..i] == groups[..i];
    } else {
      assert groups[..i + 1] == groups;
    }
  }

  /** The user ids known after some successful creations. */
  function KnownAfter(existing: seq<string>, posts: seq<Post>): seq<string> {
    if posts == [] then existing
    else
      var front, last := posts[..|posts| - 1], posts[|posts| - 1];
      if last.CreateUser? then KnownAfter(existing, front) + [Lower(last.user)] else KnownAfter(existing, front)
  }

  lemma KnownGrows(existing: seq<string>, posts: seq<Post>, p: Post)
    requires p.CreateUser?
    ensures KnownAfter(existing, posts + [p]) == KnownAfter(existing, posts) + [Lower(p.user)]
  {
    assert (posts + [p])[..|posts|] == posts;
  }

  lemma TakeNext(posts: seq<Post>, i: nat)
    requires i < |posts|
    ensures posts[..i + 1] == posts[..i] + [posts[i]]
  {
  }
}
