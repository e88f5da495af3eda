/** Outcomes of registering an account, one per message the recipe books print
    (SQLite, SQLAlchemy and MongoDB can print all three; Redis never reports a
    taken email). */
module Accounts {

  datatype Registration = UserCreated | UsernameTaken | EmailTaken
}
