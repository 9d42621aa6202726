/**
 * Users with shared friend lists (`Rc<RefCell<User>>`): each user is a heap
 * object, and a friend list holds references to other users, so one user can
 * be on several lists.
 */
module RcRefCell {
  import opened Numbers

  class User {
    var name: string
    var age: u8
    var friends: seq<User>

    /** `User::new`: the given name and age, no friends. */
    constructor (name: string, age: u8)
      ensures this.name == name && this.age == age && friends == []
    {
      this.name := name;
      this.age := age;
      friends := [];
    }
  }

  /** `add_friend`: the friend is appended to the parent's list; nothing else changes. */
  method AddFriend(parent: User, friend: User)
    modifies parent`friends
    ensures parent.friends == old(parent.friends) + [friend]
  {
    parent.friends := parent.friends + [friend];
  }

  /** The names of a list of users, one per user, in list order. */
  function Names(users: seq<User>): (names: seq<string>)
    reads users
    ensures |names| == |users|
    ensures forall k | 0 <= k < |users| :: names[k] == users[k].name
  {
    if users == [] then [] else Names(users[..|users| - 1]) + [users[|users| - 1].name]
  }

  /** `list_friends`: reads the user and its friends, changes nothing. */
  function ListFriends(user: User): (names: seq<string>)
    reads user, user.friends
    ensures |names| == |user.friends|
    ensures forall k | 0 <= k < |names| :: names[k] == user.friends[k].name
  {
    Names(user.friends)
  }

  /** Listing after an append: the old names followed by the new friend's. */
  lemma NamesAppend(users: seq<User>, friend: User)
    ensures Names(users + [friend]) == Names(users) + [friend.name]
  {
  }

  /**
   * The tutorial's run: Alice befriends Bob then Charlie; Dave then
   * befriends the same Bob, which leaves Alice's list as it was.
   */
  method Scenario() returns (aliceFriends: seq<string>, daveFriends: seq<string>, aliceAfter: seq<string>)
    ensures aliceFriends == ["Bob", "Charlie"]
    ensures daveFriends == ["Bob"]
    ensures aliceAfter == aliceFriends
  {
    var alice := new User("Alice", 30);
    var bob := new User("Bob", 25);
    var charlie := new User("Charlie", 28);
    AddFriend(alice, bob);
    AddFriend(alice, charlie);
    assert alice.friends == [bob, charlie];
    aliceFriends := ListFriends(alice);
    assert |aliceFriends| == 2 && aliceFriends[0] == "Bob" && aliceFriends[1] == "Charlie";
    assert aliceFriends == ["Bob", "Charlie"];
    var dave := new User("Dave", 27);
    AddFriend(dave, bob);
    assert dave.friends == [bob];
    daveFriends := ListFriends(dave);
    assert |daveFriends| == 1 && daveFriends[0] == "Bob";
    assert alice.friends == [bob, charlie] && bob.name == "Bob" && charlie.name == "Charlie";
    aliceAfter := ListFriends(alice);
  }
}
