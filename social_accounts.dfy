/** The linked third-party logins (allauth's `SocialAccount` rows), as far as
    the backend reads and deletes them. The table is a sequence in storage
    order; `filter(user=...)` keeps that order. */
module SocialAccounts {
  import opened Records
  import opened JsonData

  datatype SocialAccount = SocialAccount(
    id: nat,
    user: Uuid,
    provider: string,
    uid: string,
    dateJoined: Timestamp,
    lastLogin: Timestamp,
    extraData: map<string, Json>)

  /** Primary keys are unique within the table. */
  predicate UniqueIds(all: seq<SocialAccount>) {
    forall i, j | 0 <= i < j < |all| :: all[i].id != all[j].id
  }

  /** The conditions the backend filters linked accounts by. */
  datatype Query = ByUser(user: Uuid) | ByProvider(provider: string) | OtherThan(id: nat)

  predicate Matches(q: Query, a: SocialAccount) {
    match q
    case ByUser(user) => a.user == user
    case ByProvider(provider) => a.provider == provider
    case OtherThan(id) => a.id != id
  }

  /** `.filter(...)` on a list of accounts: the matching ones, each as often as
      it occurs, in storage order. */
  function Filter(all: seq<SocialAccount>, q: Query): (r: seq<SocialAccount>)
    ensures |r| <= |all|
    ensures forall a | a in r :: a in all && Matches(q, a)
    ensures forall a | a in all && Matches(q, a) :: a in r
    ensures forall a :: multiset(r)[a] == if Matches(q, a) then multiset(all)[a] else 0
  {
    if all == [] then []
    else
      assert all == [all[0]] + all[1..];
      (if Matches(q, all[0]) then [all[0]] else []) + Filter(all[1..], q)
  }

  /** Filtering distributes over concatenation, so the matches keep the order
      they have in the table. */
  lemma {:induction false} FilterConcat(a: seq<SocialAccount>, b: seq<SocialAccount>, q: Query)
    ensures Filter(a + b, q) == Filter(a, q) + Filter(b, q)
  {
    if a == [] {
      assert a + b == b;
    } else {
      assert (a + b)[1..] == a[1..] + b;
      FilterConcat(a[1..], b, q);
    }
  }

  /** A filter that every account matches returns the list itself. */
  lemma {:induction false} FilterAllMatch(all: seq<SocialAccount>, q: Query)
    requires forall a | a in all :: Matches(q, a)
    ensures Filter(all, q) == all
  {
    if all != [] {
      FilterAllMatch(all[1..], q);
    }
  }

  /** `SocialAccount.objects.filter(user=user)` */
  function OwnedBy(all: seq<SocialAccount>, user: Uuid): seq<SocialAccount> {
    Filter(all, ByUser(user))
  }

  /** `.filter(provider=provider)` */
  function WithProvider(accounts: seq<SocialAccount>, provider: string): seq<SocialAccount> {
    Filter(accounts, ByProvider(provider))
  }

  /** The table after `DELETE ... WHERE id = id`. */
  function Except(all: seq<SocialAccount>, id: nat): seq<SocialAccount> {
    Filter(all, OtherThan(id))
  }

  /** Deleting one stored account shortens its owner's list by exactly one and
      leaves the length of every other user's list as it was. */
  lemma {:induction false} ExceptOwned(all: seq<SocialAccount>, user: Uuid, a: SocialAccount)
    requires UniqueIds(all) && a in all
    ensures |OwnedBy(Except(all, a.id), user)| == |OwnedBy(all, user)| - (if a.user == user then 1 else 0)
  {
    if all[0] == a {
      forall b | b in all[1..] ensures b.id != a.id {
        var j :| 0 <= j < |all[1..]| && all[1..][j] == b;
        assert all[j + 1] == b;
      }
      ExceptNone(all[1..], a.id);
      assert Except(all, a.id) == Except(all[1..], a.id);
    } else {
      assert all[0].id != a.id by {
        var j :| 0 <= j < |all| && all[j] == a;
        assert j != 0;
      }
      assert UniqueIds(all[1..]) by {
        forall i, j | 0 <= i < j < |all[1..]| ensures all[1..][i].id != all[1..][j].id {
          assert all[1..][i] == all[i + 1] && all[1..][j] == all[j + 1];
        }
      }
      assert a in all[1..];
      ExceptOwned(all[1..], user, a);
      assert Except(all, a.id) == [all[0]] + Except(all[1..], a.id);
      assert OwnedBy([all[0]] + Except(all[1..], a.id), user) ==
             (if all[0].user == user then [all[0]] else []) + OwnedBy(Except(all[1..], a.id), user);
    }
  }

  /** Removing an id that no account has changes nothing. */
  lemma {:induction false} ExceptNone(all: seq<SocialAccount>, id: nat)
    requires forall a | a in all :: a.id != id
    ensures Except(all, id) == all
  {
    FilterAllMatch(all, OtherThan(id));
  }

  /** `SocialAccount.objects`: the whole table. */
  class SocialAccountTable {
    var accounts: seq<SocialAccount>

    constructor (accounts: seq<SocialAccount>)
      ensures this.accounts == accounts
    {
      this.accounts := accounts;
    }
  }
}
