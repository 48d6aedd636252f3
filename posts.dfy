/** One player record of the fetched JSON list (the `Post` type of app/page.tsx). */
module Posts {

  /** Every field is free text; no field, nor any combination of them, is guaranteed unique. */
  datatype Post = Post(
    avatar: string,
    firstName: string,
    lastName: string,
    email: string,
    phoneNumber: string,
    username: string,
    city: string,
    country: string,
    position: string
  )
}
