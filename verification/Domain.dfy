/** The values that travel through a report. */
module Domain {
  datatype User = User(id: string, username: string, displayName: string, platformUsernames: map<string, string>)

  /** The username on a platform, falling back to the account's own. */
  function PlatformUsername(u: User, platform: string): string {
    if platform in u.platformUsernames then u.platformUsernames[platform] else u.username
  }

  datatype Repository = Repository(id: string, name: string, fullName: string, url: string, platform: string, apiToken: string)

  /** A type name other than the four known ones. */
  type OtherName = n: string | n != "COMMIT" && n != "MERGED_PR" && n != "ISSUE" && n != "PR_REVIEW" witness ""

  /** The activity types by name; the type is open, so any further name is possible. */
  datatype ActivityType = Commit | MergedPullRequest | Issue | PullRequestReview | Other(name: OtherName)

  datatype Activity = Activity(kind: ActivityType, title: string, url: string, createdAt: int, summary: string)

  datatype ActivityCount = ActivityCount(kind: ActivityType, count: nat)

  datatype UserReport = UserReport(user: User, counts: seq<ActivityCount>, activities: seq<Activity>)
}
