/** The CanCan ability of a user: the rule table built by `Ability#initialize`
    and the question `can?(action, subject)` asked of it. */
module Abilities {
  import opened Wrappers
  import opened Schema

  datatype User = User(id: Id)

  /** The four actions the rules name, the controller actions CanCan aliases
      to them (`index`/`show` to `read`, `new` to `create`, `edit` to
      `update`), and any other action. */
  datatype Action = Read | Create | Update | Destroy | Index | Show | New | Edit | OtherAction

  datatype Kind = PostKind | CommentKind

  /** What `can?` is asked about: a model class, one record with its
      `user_id`, or anything else (a Topic, a Tag, ...). */
  datatype Subject =
    | ClassSubject(kind: Kind)
    | RecordSubject(kind: Kind, ownerId: Option<Id>)
    | OtherSubject

  /** One `can` line: its actions, its model class, and the `user_id`
      condition when it has one. */
  datatype Rule = Rule(actions: set<Action>, kind: Kind, ownerId: Option<Id>)

  /** The rules `Ability.new(user)` defines, in order; none for a guest. */
  function Rules(user: Option<User>): seq<Rule> {
    match user
    case None => []
    case Some(u) => [
      Rule({Read}, PostKind, None),
      Rule({Read}, CommentKind, None),
      Rule({Create}, PostKind, None),
      Rule({Create}, CommentKind, None),
      Rule({Update, Destroy}, PostKind, Some(u.id)),
      Rule({Update, Destroy}, CommentKind, Some(u.id))
    ]
  }

  /** A rule's actions together with their default aliases. */
  function Expand(actions: set<Action>): set<Action> {
    actions
      + (if Read in actions then {Index, Show} else {})
      + (if Create in actions then {New} else {})
      + (if Update in actions then {Edit} else {})
  }

  /** The rule speaks about this action on this kind of subject. */
  predicate Relevant(rule: Rule, action: Action, subject: Subject) {
    action in Expand(rule.actions) && !subject.OtherSubject? && subject.kind == rule.kind
  }

  /** The rule's condition holds: a class always matches; a record matches
      an unconditioned rule, or one whose `user_id` equals the record's. */
  predicate ConditionHolds(rule: Rule, subject: Subject) {
    subject.ClassSubject? || rule.ownerId.None? || (subject.RecordSubject? && subject.ownerId == rule.ownerId)
  }

  /** `can?(action, subject)`: some relevant rule's condition holds. */
  predicate Can(user: Option<User>, action: Action, subject: Subject) {
    var rules := Rules(user);
    exists i :: 0 <= i < |rules| && Relevant(rules[i], action, subject) && ConditionHolds(rules[i], subject)
  }

  predicate IsPostOrComment(subject: Subject) {
    !subject.OtherSubject?
  }

  /** A guest has no permission at all. */
  lemma GuestHasNoPermission(action: Action, subject: Subject)
    ensures !Can(None, action, subject)
  {
  }

  /** Any signed-in user may read (`index`, `show`) and create (`new`) any
      post and any comment, whoever owns it. */
  lemma SignedInMayReadAndCreate(user: User, action: Action, subject: Subject)
    requires action in {Read, Index, Show, Create, New}
    requires IsPostOrComment(subject)
    ensures Can(Some(user), action, subject)
  {
    var rules := Rules(Some(user));
    var i := (if action in {Read, Index, Show} then 0 else 2) + (if subject.kind == PostKind then 0 else 1);
    assert Relevant(rules[i], action, subject) && ConditionHolds(rules[i], subject);
  }

  /** Update (`edit`) and destroy of one post or comment are granted exactly
      when the user is signed in and the record's `user_id` is theirs. */
  lemma OnlyOwnerMayModify(user: Option<User>, action: Action, kind: Kind, ownerId: Option<Id>)
    requires action in {Update, Edit, Destroy}
    ensures Can(user, action, RecordSubject(kind, ownerId)) <==> user.Some? && ownerId == Some(user.value.id)
  {
    var subject := RecordSubject(kind, ownerId);
    if user.Some? && ownerId == Some(user.value.id) {
      var rules := Rules(user);
      var i := if kind == PostKind then 4 else 5;
      assert Relevant(rules[i], action, subject) && ConditionHolds(rules[i], subject);
    }
  }

  /** Nothing beyond the table is granted: no action other than the listed
      ones, and no subject other than posts and comments. */
  lemma NothingElseIsGranted(user: Option<User>, action: Action, subject: Subject)
    requires Can(user, action, subject)
    ensures user.Some? && IsPostOrComment(subject)
    ensures action != OtherAction
  {
  }

  /** Another user's post or comment can be read but never changed. */
  lemma NoOneModifiesOthersRecords(user: User, kind: Kind, ownerId: Id)
    requires ownerId != user.id
    ensures Can(Some(user), Show, RecordSubject(kind, Some(ownerId)))
    ensures !Can(Some(user), Update, RecordSubject(kind, Some(ownerId)))
    ensures !Can(Some(user), Destroy, RecordSubject(kind, Some(ownerId)))
  {
    SignedInMayReadAndCreate(user, Show, RecordSubject(kind, Some(ownerId)));
    OnlyOwnerMayModify(Some(user), Update, kind, Some(ownerId));
    OnlyOwnerMayModify(Some(user), Destroy, kind, Some(ownerId));
  }
}
