/**
 * A run of RC4 with the key "Key", written down round by round: the 256 rounds of key scheduling and nine of
 * encryption (douyin/abogus.rs).
 */
module Rc4Steps {
  const ROUNDS := 265

  function J0(i: int): int
  {
    if i == 0 then 75 else if i == 1 then 177 else if i == 2 then 44 else if i == 3 then 122 else
    if i == 4 then 227 else if i == 5 then 97 else if i == 6 then 178 else if i == 7 then 30 else
    if i == 8 then 159 else if i == 9 then 243 else if i == 10 then 98 else if i == 11 then 230 else
    if i == 12 then 61 else if i == 13 then 175 else if i == 14 then 54 else if i == 15 then 144 else -1
  }

  function J1(i: int): int
  {
    if i == 16 then 5 else if i == 17 then 143 else if i == 18 then 236 else if i == 19 then 100 else
    if i == 20 then 241 else if i == 21 then 81 else if i == 22 then 204 else if i == 23 then 92 else
    if i == 24 then 191 else if i == 25 then 61 else if i == 26 then 208 else if i == 27 then 54 else
    if i == 28 then 183 else if i == 29 then 77 else if i == 30 then 159 else if i == 31 then 35 else -1
  }

  function J2(i: int): int
  {
    if i == 32 then 188 else if i == 33 then 40 else if i == 34 then 175 else if i == 35 then 71 else
    if i == 36 then 182 else if i == 37 then 64 else if i == 38 then 223 else if i == 39 then 81 else
    if i == 40 then 215 else if i == 41 then 121 else if i == 42 then 238 else if i == 43 then 126 else
    if i == 44 then 249 else if i == 45 then 113 else if i == 46 then 4 else if i == 47 then 172 else -1
  }

  function J3(i: int): int
  {
    if i == 48 then 39 else if i == 49 then 189 else if i == 50 then 104 else if i == 51 then 230 else
    if i == 52 then 127 else if i == 53 then 45 else if i == 54 then 147 else if i == 55 then 47 else
    if i == 56 then 224 else if i == 57 then 100 else if i == 58 then 3 else if i == 59 then 183 else
    if i == 60 then 62 else if i == 61 then 188 else if i == 62 then 113 else if i == 63 then 251 else -1
  }

  function J4(i: int): int
  {
    if i == 64 then 133 else if i == 65 then 63 else if i == 66 then 204 else if i == 67 then 116 else
    if i == 68 then 49 else if i == 69 then 193 else if i == 70 then 108 else if i == 71 then 4 else
    if i == 72 then 151 else if i == 73 then 69 else if i == 74 then 8 else if i == 75 then 83 else
    if i == 76 then 4 else if i == 77 then 154 else if i == 78 then 51 else if i == 79 then 231 else -1
  }

  function J5(i: int): int
  {
    if i == 80 then 176 else if i == 81 then 34 else if i == 82 then 217 else if i == 83 then 82 else
    if i == 84 then 241 else if i == 85 then 171 else if i == 86 then 122 else if i == 87 then 28 else
    if i == 88 then 217 else if i == 89 then 171 else if i == 90 then 80 else if i == 91 then 16 else
    if i == 92 then 160 else if i == 93 then 72 else if i == 94 then 11 else if i == 95 then 227 else -1
  }

  function J6(i: int): int
  {
    if i == 96 then 142 else if i == 97 then 248 else if i == 98 then 123 else if i == 99 then 41 else
    if i == 100 then 199 else if i == 101 then 165 else if i == 102 then 86 else if i == 103 then 34 else
    if i == 104 then 205 else if i == 105 then 129 else if i == 106 then 80 else if i == 107 then 52 else
    if i == 108 then 197 else if i == 109 then 151 else if i == 110 then 126 else if i == 111 then 56 else -1
  }

  function J7(i: int): int
  {
    if i == 112 then 13 else if i == 113 then 194 else if i == 114 then 127 else if i == 115 then 87 else
    if i == 116 then 19 else if i == 117 then 211 else if i == 118 then 174 else if i == 119 then 158 else
    if i == 120 then 97 else if i == 121 then 239 else if i == 122 then 190 else if i == 123 then 19 else
    if i == 124 then 244 else if i == 125 then 234 else if i == 126 then 163 else if i == 127 then 122 else -1
  }

  function J8(i: int): int
  {
    if i == 128 then 115 else if i == 129 then 39 else if i == 130 then 14 else if i == 131 then 10 else
    if i == 132 then 217 else if i == 133 then 99 else if i == 134 then 98 else if i == 135 then 52 else
    if i == 136 then 33 else if i == 137 then 35 else if i == 138 then 248 else if i == 139 then 232 else
    if i == 140 then 237 else if i == 141 then 197 else if i == 142 then 138 else if i == 143 then 20 else -1
  }

  function J9(i: int): int
  {
    if i == 144 then 110 else if i == 145 then 100 else if i == 146 then 111 else if i == 147 then 213 else
    if i == 148 then 206 else if i == 149 then 220 else if i == 150 then 189 else if i == 151 then 143 else
    if i == 152 then 160 else if i == 153 then 132 else if i == 154 then 6 else if i == 155 then 26 else
    if i == 156 then 1 else if i == 157 then 3 else if i == 158 then 243 else if i == 159 then 69 else -1
  }

  function J10(i: int): int
  {
    if i == 160 then 66 else if i == 161 then 92 else if i == 162 then 73 else if i == 163 then 28 else
    if i == 164 then 57 else if i == 165 then 233 else if i == 166 then 244 else if i == 167 then 20 else
    if i == 168 then 7 else if i == 169 then 21 else if i == 170 then 56 else if i == 171 then 220 else
    if i == 172 then 112 else if i == 173 then 150 else if i == 174 then 87 else if i == 175 then 222 else -1
  }

  function J11(i: int): int
  {
    if i == 176 then 167 else if i == 177 then 243 else if i == 178 then 94 else if i == 179 then 138 else
    if i == 180 then 137 else if i == 181 then 163 else if i == 182 then 64 else if i == 183 then 198 else
    if i == 184 then 227 else if i == 185 then 21 else if i == 186 then 26 else if i == 187 then 58 else
    if i == 188 then 204 else if i == 189 then 173 else if i == 190 then 104 else if i == 191 then 249 else -1
  }

  function J12(i: int): int
  {
    if i == 192 then 4 else if i == 193 then 174 else if i == 194 then 99 else if i == 195 then 113 else
    if i == 196 then 154 else if i == 197 then 160 else if i == 198 then 38 else if i == 199 then 196 else
    if i == 200 then 5 else if i == 201 then 25 else if i == 202 then 72 else if i == 203 then 140 else
    if i == 204 then 240 else if i == 205 then 135 else if i == 206 then 148 else if i == 207 then 174 else -1
  }

  function J13(i: int): int
  {
    if i == 208 then 45 else if i == 209 then 119 else if i == 210 then 148 else if i == 211 then 110 else
    if i == 212 then 187 else if i == 213 then 33 else if i == 214 then 92 else if i == 215 then 246 else
    if i == 216 then 25 else if i == 217 then 2 else if i == 218 then 85 else if i == 219 then 123 else
    if i == 220 then 57 else if i == 221 then 143 else if i == 222 then 252 else if i == 223 then 135 else -1
  }

  function J14(i: int): int
  {
    if i == 224 then 56 else if i == 225 then 100 else if i == 226 then 171 else if i == 227 then 220 else
    if i == 228 then 11 else if i == 229 then 85 else if i == 230 then 1 else if i == 231 then 155 else
    if i == 232 then 139 else if i == 233 then 105 else if i == 234 then 49 else if i == 235 then 129 else
    if i == 236 then 12 else if i == 237 then 227 else if i == 238 then 114 else if i == 239 then 20 else -1
  }

  function J15(i: int): int
  {
    if i == 240 then 120 else if i == 241 then 49 else if i == 242 then 156 else if i == 243 then 232 else
    if i == 244 then 243 else if i == 245 then 97 else if i == 246 then 205 else if i == 247 then 41 else
    if i == 248 then 44 else if i == 249 then 143 else if i == 250 then 238 else if i == 251 then 166 else
    if i == 252 then 19 else if i == 253 then 117 else if i == 254 then 236 else if i == 255 then 54 else -1
  }

  function J16(i: int): int
  {
    if i == 256 then 51 else if i == 257 then 183 else if i == 258 then 84 else if i == 259 then 20 else
    if i == 260 then 220 else if i == 261 then 249 else if i == 262 then 161 else if i == 263 then 235 else
    if i == 264 then 222 else -1
  }

  /** The second index of the swap in a round. */
  function J(i: int): int
  {
    if 0 <= i < 16 then J0(i)
    else if 16 <= i < 32 then J1(i)
    else if 32 <= i < 48 then J2(i)
    else if 48 <= i < 64 then J3(i)
    else if 64 <= i < 80 then J4(i)
    else if 80 <= i < 96 then J5(i)
    else if 96 <= i < 112 then J6(i)
    else if 112 <= i < 128 then J7(i)
    else if 128 <= i < 144 then J8(i)
    else if 144 <= i < 160 then J9(i)
    else if 160 <= i < 176 then J10(i)
    else if 176 <= i < 192 then J11(i)
    else if 192 <= i < 208 then J12(i)
    else if 208 <= i < 224 then J13(i)
    else if 224 <= i < 240 then J14(i)
    else if 240 <= i < 256 then J15(i)
    else if 256 <= i < 272 then J16(i)
    else -1
  }

  function V0(i: int): int
  {
    if i == 0 then 0 else if i == 1 then 1 else if i == 2 then 2 else if i == 3 then 3 else if i == 4 then 4 else
    if i == 5 then 5 else if i == 6 then 6 else if i == 7 then 7 else if i == 8 then 8 else if i == 9 then 9 else
    if i == 10 then 10 else if i == 11 then 11 else if i == 12 then 12 else if i == 13 then 13 else
    if i == 14 then 14 else if i == 15 then 15 else -1
  }

  function V1(i: int): int
  {
    if i == 16 then 16 else if i == 17 then 17 else if i == 18 then 18 else if i == 19 then 19 else
    if i == 20 then 20 else if i == 21 then 21 else if i == 22 then 22 else if i == 23 then 23 else
    if i == 24 then 24 else if i == 25 then 25 else if i == 26 then 26 else if i == 27 then 27 else
    if i == 28 then 28 else if i == 29 then 29 else if i == 30 then 7 else if i == 31 then 31 else -1
  }

  function V2(i: int): int
  {
    if i == 32 then 32 else if i == 33 then 33 else if i == 34 then 34 else if i == 35 then 31 else
    if i == 36 then 36 else if i == 37 then 37 else if i == 38 then 38 else if i == 39 then 39 else
    if i == 40 then 33 else if i == 41 then 41 else if i == 42 then 42 else if i == 43 then 43 else
    if i == 44 then 2 else if i == 45 then 45 else if i == 46 then 46 else if i == 47 then 47 else -1
  }

  function V3(i: int): int
  {
    if i == 48 then 48 else if i == 49 then 49 else if i == 50 then 50 else if i == 51 then 51 else
    if i == 52 then 52 else if i == 53 then 53 else if i == 54 then 27 else if i == 55 then 55 else
    if i == 56 then 56 else if i == 57 then 57 else if i == 58 then 58 else if i == 59 then 59 else
    if i == 60 then 60 else if i == 61 then 25 else if i == 62 then 60 else if i == 63 then 63 else -1
  }

  function V4(i: int): int
  {
    if i == 64 then 37 else if i == 65 then 65 else if i == 66 then 66 else if i == 67 then 67 else
    if i == 68 then 68 else if i == 69 then 69 else if i == 70 then 70 else if i == 71 then 31 else
    if i == 72 then 72 else if i == 73 then 73 else if i == 74 then 74 else if i == 75 then 0 else
    if i == 76 then 76 else if i == 77 then 29 else if i == 78 then 78 else if i == 79 then 79 else -1
  }

  function V5(i: int): int
  {
    if i == 80 then 80 else if i == 81 then 39 else if i == 82 then 82 else if i == 83 then 0 else
    if i == 84 then 84 else if i == 85 then 85 else if i == 86 then 86 else if i == 87 then 87 else
    if i == 88 then 88 else if i == 89 then 89 else if i == 90 then 90 else if i == 91 then 91 else
    if i == 92 then 23 else if i == 93 then 93 else if i == 94 then 94 else if i == 95 then 95 else -1
  }

  function V6(i: int): int
  {
    if i == 96 then 96 else if i == 97 then 5 else if i == 98 then 10 else if i == 99 then 99 else
    if i == 100 then 57 else if i == 101 then 101 else if i == 102 then 102 else if i == 103 then 103 else
    if i == 104 then 50 else if i == 105 then 105 else if i == 106 then 106 else if i == 107 then 107 else
    if i == 108 then 70 else if i == 109 then 109 else if i == 110 then 110 else if i == 111 then 111 else -1
  }

  function V7(i: int): int
  {
    if i == 112 then 112 else if i == 113 then 60 else if i == 114 then 114 else if i == 115 then 115 else
    if i == 116 then 67 else if i == 117 then 117 else if i == 118 then 118 else if i == 119 then 119 else
    if i == 120 then 120 else if i == 121 then 41 else if i == 122 then 86 else if i == 123 then 10 else
    if i == 124 then 124 else if i == 125 then 125 else if i == 126 then 110 else if i == 127 then 114 else -1
  }

  function V8(i: int): int
  {
    if i == 128 then 128 else if i == 129 then 105 else if i == 130 then 130 else if i == 131 then 131 else
    if i == 132 then 132 else if i == 133 then 37 else if i == 134 then 134 else if i == 135 then 135 else
    if i == 136 then 136 else if i == 137 then 137 else if i == 138 then 138 else if i == 139 then 139 else
    if i == 140 then 140 else if i == 141 then 141 else if i == 142 then 96 else if i == 143 then 17 else -1
  }

  function V9(i: int): int
  {
    if i == 144 then 15 else if i == 145 then 145 else if i == 146 then 146 else if i == 147 then 27 else
    if i == 148 then 148 else if i == 149 then 149 else if i == 150 then 150 else if i == 151 then 109 else
    if i == 152 then 152 else if i == 153 then 153 else if i == 154 then 29 else if i == 155 then 155 else
    if i == 156 then 156 else if i == 157 then 157 else if i == 158 then 119 else if i == 159 then 7 else -1
  }

  function V10(i: int): int
  {
    if i == 160 then 152 else if i == 161 then 161 else if i == 162 then 162 else if i == 163 then 110 else
    if i == 164 then 164 else if i == 165 then 101 else if i == 166 then 166 else if i == 167 then 167 else
    if i == 168 then 168 else if i == 169 then 169 else if i == 170 then 170 else if i == 171 then 89 else
    if i == 172 then 47 else if i == 173 then 173 else if i == 174 then 118 else if i == 175 then 34 else -1
  }

  function V11(i: int): int
  {
    if i == 176 then 80 else if i == 177 then 1 else if i == 178 then 6 else if i == 179 then 179 else
    if i == 180 then 180 else if i == 181 then 181 else if i == 182 then 36 else if i == 183 then 59 else
    if i == 184 then 184 else if i == 185 then 185 else if i == 186 then 186 else if i == 187 then 187 else
    if i == 188 then 25 else if i == 189 then 150 else if i == 190 then 86 else if i == 191 then 24 else -1
  }

  function V12(i: int): int
  {
    if i == 192 then 192 else if i == 193 then 69 else if i == 194 then 60 else if i == 195 then 195 else
    if i == 196 then 196 else if i == 197 then 141 else if i == 198 then 59 else if i == 199 then 57 else
    if i == 200 then 200 else if i == 201 then 201 else if i == 202 then 202 else if i == 203 then 203 else
    if i == 204 then 25 else if i == 205 then 50 else if i == 206 then 148 else if i == 207 then 207 else -1
  }

  function V13(i: int): int
  {
    if i == 208 then 26 else if i == 209 then 209 else if i == 210 then 210 else if i == 211 then 117 else
    if i == 212 then 212 else if i == 213 then 27 else if i == 214 then 214 else if i == 215 then 33 else
    if i == 216 then 216 else if i == 217 then 132 else if i == 218 then 218 else if i == 219 then 219 else
    if i == 220 then 89 else if i == 221 then 221 else if i == 222 then 34 else if i == 223 then 38 else -1
  }

  function V14(i: int): int
  {
    if i == 224 then 56 else if i == 225 then 225 else if i == 226 then 226 else if i == 227 then 184 else
    if i == 228 then 228 else if i == 229 then 229 else if i == 230 then 51 else if i == 231 then 79 else
    if i == 232 then 139 else if i == 233 then 101 else if i == 234 then 125 else if i == 235 then 235 else
    if i == 236 then 18 else if i == 237 then 140 else if i == 238 then 42 else if i == 239 then 41 else -1
  }

  function V15(i: int): int
  {
    if i == 240 then 25 else if i == 241 then 84 else if i == 242 then 242 else if i == 243 then 1 else
    if i == 244 then 166 else if i == 245 then 245 else if i == 246 then 33 else if i == 247 then 247 else
    if i == 248 then 138 else if i == 249 then 24 else if i == 250 then 250 else if i == 251 then 63 else
    if i == 252 then 34 else if i == 253 then 253 else if i == 254 then 254 else if i == 255 then 255 else -1
  }

  function V16(i: int): int
  {
    if i == 256 then 51 else if i == 257 then 132 else if i == 258 then 157 else if i == 259 then 192 else
    if i == 260 then 200 else if i == 261 then 29 else if i == 262 then 168 else if i == 263 then 74 else
    if i == 264 then 243 else -1
  }

  /** The entry that a round finds at its first index. */
  function V(i: int): int
  {
    if 0 <= i < 16 then V0(i)
    else if 16 <= i < 32 then V1(i)
    else if 32 <= i < 48 then V2(i)
    else if 48 <= i < 64 then V3(i)
    else if 64 <= i < 80 then V4(i)
    else if 80 <= i < 96 then V5(i)
    else if 96 <= i < 112 then V6(i)
    else if 112 <= i < 128 then V7(i)
    else if 128 <= i < 144 then V8(i)
    else if 144 <= i < 160 then V9(i)
    else if 160 <= i < 176 then V10(i)
    else if 176 <= i < 192 then V11(i)
    else if 192 <= i < 208 then V12(i)
    else if 208 <= i < 224 then V13(i)
    else if 224 <= i < 240 then V14(i)
    else if 240 <= i < 256 then V15(i)
    else if 256 <= i < 272 then V16(i)
    else -1
  }

  function HitA0(i: int): int
  {
    if i == 1 then 156 else if i == 2 then 217 else if i == 3 then 58 else if i == 4 then 46 else
    if i == 5 then 16 else if i == 6 then 154 else if i == 7 then 168 else if i == 8 then 74 else
    if i == 10 then 131 else if i == 11 then 94 else if i == 12 then 236 else if i == 13 then 112 else
    if i == 14 then 130 else -1
  }

  function HitA1(i: int): int
  {
    if i == 16 then 91 else if i == 19 then 116 else if i == 20 then 143 else if i == 21 then 169 else
    if i == 25 then 201 else if i == 26 then 155 else if i == 28 then 87 else if i == 30 then 7 else -1
  }

  function HitA2(i: int): int
  {
    if i == 33 then 136 else if i == 34 then 81 else if i == 35 then 31 else if i == 38 then 198 else
    if i == 39 then 48 else if i == 40 then 33 else if i == 41 then 99 else if i == 44 then 2 else
    if i == 45 then 53 else if i == 47 then 55 else -1
  }

  function HitA3(i: int): int
  {
    if i == 49 then 68 else if i == 51 then 78 else if i == 52 then 107 else if i == 54 then 14 else
    if i == 56 then 111 else if i == 57 then 164 else if i == 58 then 187 else if i == 61 then 12 else
    if i == 62 then 60 else if i == 63 then 65 else -1
  }

  function HitA4(i: int): int
  {
    if i == 64 then 37 else if i == 66 then 160 else if i == 69 then 73 else if i == 71 then 35 else
    if i == 72 then 93 else if i == 73 then 162 else if i == 75 then 0 else if i == 77 then 29 else -1
  }

  function HitA5(i: int): int
  {
    if i == 80 then 90 else if i == 81 then 21 else if i == 82 then 83 else if i == 83 then 75 else
    if i == 84 then 258 else if i == 85 then 218 else if i == 86 then 102 else if i == 87 then 115 else
    if i == 92 then 23 else if i == 94 then 178 else -1
  }

  function HitA6(i: int): int
  {
    if i == 97 then 5 else if i == 98 then 10 else if i == 99 then 133 else if i == 100 then 19 else
    if i == 104 then 50 else if i == 105 then 233 else if i == 108 then 70 else if i == 110 then 144 else
    if i == 111 then 146 else -1
  }

  function HitA7(i: int): int
  {
    if i == 112 then 172 else if i == 113 then 45 else if i == 114 then 238 else if i == 115 then 128 else
    if i == 116 then 67 else if i == 117 then 253 else if i == 119 then 209 else if i == 120 then 240 else
    if i == 121 then 41 else if i == 122 then 3 else if i == 123 then 98 else if i == 126 then 43 else
    if i == 127 then 52 else -1
  }

  function HitA8(i: int): int
  {
    if i == 129 then 105 else if i == 132 then 153 else if i == 133 then 64 else if i == 135 then 205 else
    if i == 137 then 180 else if i == 138 then 142 else if i == 139 then 232 else if i == 140 then 203 else
    if i == 142 then 96 else if i == 143 then 17 else -1
  }

  function HitA9(i: int): int
  {
    if i == 144 then 15 else if i == 147 then 54 else if i == 148 then 206 else if i == 150 then 173 else
    if i == 151 then 72 else if i == 154 then 77 else if i == 155 then 231 else if i == 156 then 242 else
    if i == 158 then 119 else if i == 159 then 8 else -1
  }

  function HitA10(i: int): int
  {
    if i == 160 then 92 else if i == 161 then 262 else if i == 163 then 126 else if i == 165 then 101 else
    if i == 166 then 251 else if i == 167 then 176 else if i == 171 then 85 else if i == 172 then 47 else
    if i == 173 then 189 else if i == 174 then 118 else if i == 175 then 13 else -1
  }

  function HitA11(i: int): int
  {
    if i == 176 then 80 else if i == 177 then 1 else if i == 178 then 6 else if i == 182 then 36 else
    if i == 183 then 28 else if i == 187 then 212 else if i == 188 then 32 else if i == 189 then 49 else
    if i == 190 then 122 else if i == 191 then 24 else -1
  }

  function HitA12(i: int): int
  {
    if i == 193 then 69 else if i == 194 then 113 else if i == 196 then 199 else if i == 197 then 108 else
    if i == 198 then 183 else if i == 199 then 100 else if i == 204 then 22 else if i == 205 then 104 else
    if i == 206 then 148 else -1
  }

  function HitA13(i: int): int
  {
    if i == 208 then 26 else if i == 211 then 117 else if i == 213 then 147 else if i == 215 then 40 else
    if i == 217 then 82 else if i == 220 then 149 else if i == 222 then 175 else if i == 223 then 38 else -1
  }

  function HitA14(i: int): int
  {
    if i == 224 then 56 else if i == 227 then 4 else if i == 230 then 11 else if i == 231 then 79 else
    if i == 232 then 139 else if i == 233 then 165 else if i == 234 then 125 else if i == 235 then 263 else
    if i == 236 then 18 else if i == 237 then 140 else if i == 238 then 42 else if i == 239 then 121 else -1
  }

  function HitA15(i: int): int
  {
    if i == 240 then 204 else if i == 241 then 20 else if i == 243 then 9 else if i == 244 then 124 else
    if i == 246 then 215 else if i == 248 then 97 else if i == 249 then 44 else if i == 251 then 63 else
    if i == 252 then 222 else -1
  }

  /** The first round with this second index, or -1. */
  function HitA(i: int): int
  {
    if 0 <= i < 16 then HitA0(i)
    else if 16 <= i < 32 then HitA1(i)
    else if 32 <= i < 48 then HitA2(i)
    else if 48 <= i < 64 then HitA3(i)
    else if 64 <= i < 80 then HitA4(i)
    else if 80 <= i < 96 then HitA5(i)
    else if 96 <= i < 112 then HitA6(i)
    else if 112 <= i < 128 then HitA7(i)
    else if 128 <= i < 144 then HitA8(i)
    else if 144 <= i < 160 then HitA9(i)
    else if 160 <= i < 176 then HitA10(i)
    else if 176 <= i < 192 then HitA11(i)
    else if 192 <= i < 208 then HitA12(i)
    else if 208 <= i < 224 then HitA13(i)
    else if 224 <= i < 240 then HitA14(i)
    else if 240 <= i < 256 then HitA15(i)
    else -1
  }

  function HitB0(i: int): int
  {
    if i == 1 then 230 else if i == 3 then 157 else if i == 4 then 71 else if i == 5 then 200 else
    if i == 11 then 228 else -1
  }

  function HitB1(i: int): int
  {
    if i == 19 then 123 else if i == 20 then 167 else if i == 21 then 185 else if i == 25 then 216 else
    if i == 26 then 186 else if i == 28 then 163 else -1
  }

  function HitB2(i: int): int
  {
    if i == 33 then 213 else if i == 34 then 103 else if i == 35 then 137 else if i == 39 then 129 else
    if i == 41 then 247 else if i == 44 then 248 else if i == 45 then 208 else -1
  }

  function HitB3(i: int): int
  {
    if i == 49 then 234 else if i == 51 then 256 else if i == 52 then 135 else if i == 54 then 27 else
    if i == 56 then 170 else if i == 57 then 220 else if i == 61 then 25 else -1
  }

  function HitB4(i: int): int
  {
    if i == 64 then 182 else if i == 69 then 159 else if i == 72 then 202 else -1
  }

  function HitB5(i: int): int
  {
    if i == 80 then 106 else if i == 81 then 39 else if i == 85 then 229 else if i == 87 then 174 else
    if i == 92 then 161 else -1
  }

  function HitB6(i: int): int
  {
    if i == 97 then 120 else if i == 98 then 134 else if i == 99 then 194 else if i == 100 then 57 else
    if i == 104 then 190 else if i == 110 then 211 else -1
  }

  function HitB7(i: int): int
  {
    if i == 113 then 62 else if i == 122 then 86 else if i == 123 then 219 else if i == 126 then 110 else
    if i == 127 then 114 else -1
  }

  function HitB8(i: int): int
  {
    if i == 129 then 235 else if i == 135 then 223 else if i == 138 then 179 else if i == 143 then 151 else -1
  }

  function HitB9(i: int): int
  {
    if i == 148 then 210 else if i == 151 then 109 else if i == 154 then 196 else if i == 159 then 30 else -1
  }

  function HitB10(i: int): int
  {
    if i == 160 then 152 else if i == 163 then 181 else if i == 171 then 89 else if i == 174 then 193 else
    if i == 175 then 34 else -1
  }

  function HitB11(i: int): int
  {
    if i == 183 then 59 else if i == 188 then 61 else if i == 189 then 150 else -1
  }

  function HitB12(i: int): int
  {
    if i == 197 then 141 else if i == 204 then 66 else if i == 205 then 246 else -1
  }

  function HitB13(i: int): int
  {
    if i == 217 then 88 else if i == 220 then 171 else if i == 222 then 264 else -1
  }

  function HitB14(i: int): int
  {
    if i == 227 then 95 else if i == 230 then 51 else if i == 232 then 243 else if i == 236 then 254 else
    if i == 238 then 250 else -1
  }

  function HitB15(i: int): int
  {
    if i == 241 then 84 else if i == 243 then 158 else if i == 244 then 166 else if i == 248 then 138 else
    if i == 249 then 191 else -1
  }

  /** The next one. */
  function HitB(i: int): int
  {
    if 0 <= i < 16 then HitB0(i)
    else if 16 <= i < 32 then HitB1(i)
    else if 32 <= i < 48 then HitB2(i)
    else if 48 <= i < 64 then HitB3(i)
    else if 64 <= i < 80 then HitB4(i)
    else if 80 <= i < 96 then HitB5(i)
    else if 96 <= i < 112 then HitB6(i)
    else if 112 <= i < 128 then HitB7(i)
    else if 128 <= i < 144 then HitB8(i)
    else if 144 <= i < 160 then HitB9(i)
    else if 160 <= i < 176 then HitB10(i)
    else if 176 <= i < 192 then HitB11(i)
    else if 192 <= i < 208 then HitB12(i)
    else if 208 <= i < 224 then HitB13(i)
    else if 224 <= i < 240 then HitB14(i)
    else if 240 <= i < 256 then HitB15(i)
    else -1
  }

  function HitC0(i: int): int
  {
    if i == 4 then 76 else -1
  }

  function HitC1(i: int): int
  {
    if i == 19 then 252 else if i == 20 then 239 else -1
  }

  function HitC3(i: int): int
  {
    if i == 49 then 241 else if i == 54 then 255 else if i == 56 then 224 else -1
  }

  function HitC5(i: int): int
  {
    if i == 92 then 214 else -1
  }

  function HitC6(i: int): int
  {
    if i == 97 then 245 else if i == 100 then 145 else -1
  }

  function HitC7(i: int): int
  {
    if i == 113 then 195 else if i == 122 then 127 else -1
  }

  function HitC8(i: int): int
  {
    if i == 143 then 221 else -1
  }

  function HitC10(i: int): int
  {
    if i == 160 then 197 else if i == 171 then 226 else if i == 174 then 207 else -1
  }

  function HitC11(i: int): int
  {
    if i == 183 then 257 else -1
  }

  function HitC12(i: int): int
  {
    if i == 204 then 188 else -1
  }

  function HitC13(i: int): int
  {
    if i == 217 then 132 else if i == 220 then 227 else -1
  }

  function HitC14(i: int): int
  {
    if i == 227 then 184 else -1
  }

  function HitC15(i: int): int
  {
    if i == 243 then 177 else if i == 249 then 261 else -1
  }

  /** The one after that. */
  function HitC(i: int): int
  {
    if 0 <= i < 16 then HitC0(i)
    else if 16 <= i < 32 then HitC1(i)
    else if 48 <= i < 64 then HitC3(i)
    else if 80 <= i < 96 then HitC5(i)
    else if 96 <= i < 112 then HitC6(i)
    else if 112 <= i < 128 then HitC7(i)
    else if 128 <= i < 144 then HitC8(i)
    else if 160 <= i < 176 then HitC10(i)
    else if 176 <= i < 192 then HitC11(i)
    else if 192 <= i < 208 then HitC12(i)
    else if 208 <= i < 224 then HitC13(i)
    else if 224 <= i < 240 then HitC14(i)
    else if 240 <= i < 256 then HitC15(i)
    else -1
  }

  function HitD0(i: int): int
  {
    if i == 4 then 192 else -1
  }

  function HitD1(i: int): int
  {
    if i == 20 then 259 else -1
  }

  function HitD6(i: int): int
  {
    if i == 100 then 225 else -1
  }

  function HitD8(i: int): int
  {
    if i == 143 then 249 else -1
  }

  function HitD13(i: int): int
  {
    if i == 220 then 260 else -1
  }

  function HitD14(i: int): int
  {
    if i == 227 then 237 else -1
  }

  function HitD15(i: int): int
  {
    if i == 243 then 244 else -1
  }

  /** And the last: there are never more than four. */
  function HitD(i: int): int
  {
    if 0 <= i < 16 then HitD0(i)
    else if 16 <= i < 32 then HitD1(i)
    else if 96 <= i < 112 then HitD6(i)
    else if 128 <= i < 144 then HitD8(i)
    else if 208 <= i < 224 then HitD13(i)
    else if 224 <= i < 240 then HitD14(i)
    else if 240 <= i < 256 then HitD15(i)
    else -1
  }

  /** The first index of the swap in round `r`. */
  function First(r: int): int
  {
    if r < 256 then r else r - 255
  }

  /** The later of two rounds, if the second is before `r` and has `p` as its second index. */
  function Later(q: int, h: int, p: int, r: int): int
  {
    if q < h < r && J(h) == p then h else q
  }

  /** The last round after `q` and before `r` with second index `p`, or `q`. */
  function LastHit(q: int, p: int, r: int): int
  {
    Later(Later(Later(Later(q, HitA(p), p, r), HitB(p), p, r), HitC(p), p, r), HitD(p), p, r)
  }

  /** The last round before `r` with first index `p`, or -1. */
  function LastFirst(p: int, r: int): int
  {
    if p >= 1 && p + 255 < r then p + 255 else if p < r then p else -1
  }

  /** Entry `p` before round `r`: what the last round that moved it has put there. */
  function Value(p: int, r: int): int
    decreases r
  {
    var q := LastHit(LastFirst(p, r), p, r);
    if !(0 <= q < r) then p else if J(q) == p then V(q) else Value(J(q), q)
  }

  predicate Listed(p: int, r: int)
  {
    HitA(p) == r || HitB(p) == r || HitC(p) == r || HitD(p) == r
  }

  function KeyByteAt(r: int): int
  {
    if r >= 256 then 0 else if r % 3 == 0 then 75 else if r % 3 == 1 then 101 else 121
  }

  function IndexBefore(r: int): int
  {
    if r == 0 || r == 256 then 0 else J(r - 1)
  }

  /** In key scheduling a round finds what the last round with that second index has left, or what was there first. */
  function Found(r: int): int
  {
    var h := LastHit(-1, r, r);
    if h == -1 then r else V(h)
  }

  /** What is written down for round `r` follows from the rounds before it. */
  predicate Right(r: int)
  {
    && J(r) == (IndexBefore(r) + V(r) + KeyByteAt(r)) % 256
    && V(r) == Value(First(r), r) && Listed(J(r), r)
  }

  /** The same for a round of key scheduling. */
  predicate Scheduled(r: int)
  {
    J(r) == ((if r == 0 then 0 else J(r - 1)) + V(r) + KeyByteAt(r)) % 256 && V(r) == Found(r) && Listed(J(r), r)
  }

  predicate FourScheduled(n: int)
  {
    Scheduled(4 * n) && Scheduled(4 * n + 1) && Scheduled(4 * n + 2) && Scheduled(4 * n + 3)
  }

  lemma Rounds0()
    ensures Scheduled(0) && Scheduled(1) && Scheduled(2) && Scheduled(3)
  {
  }

  lemma Rounds1()
    ensures Scheduled(4) && Scheduled(5) && Scheduled(6) && Scheduled(7)
  {
  }

  lemma Rounds2()
    ensures Scheduled(8) && Scheduled(9) && Scheduled(10) && Scheduled(11)
  {
  }

  lemma Rounds3()
    ensures Scheduled(12) && Scheduled(13) && Scheduled(14) && Scheduled(15)
  {
  }

  lemma Rounds4()
    ensures Scheduled(16) && Scheduled(17) && Scheduled(18) && Scheduled(19)
  {
  }

  lemma Rounds5()
    ensures Scheduled(20) && Scheduled(21) && Scheduled(22) && Scheduled(23)
  {
  }

  lemma Rounds6()
    ensures Scheduled(24) && Scheduled(25) && Scheduled(26) && Scheduled(27)
  {
  }

  lemma Rounds7()
    ensures Scheduled(28) && Scheduled(29) && Scheduled(30) && Scheduled(31)
  {
  }

  lemma Rounds8()
    ensures Scheduled(32) && Scheduled(33) && Scheduled(34) && Scheduled(35)
  {
  }

  lemma Rounds9()
    ensures Scheduled(36) && Scheduled(37) && Scheduled(38) && Scheduled(39)
  {
  }

  lemma Rounds10()
    ensures Scheduled(40) && Scheduled(41) && Scheduled(42) && Scheduled(43)
  {
  }

  lemma Rounds11()
    ensures Scheduled(44) && Scheduled(45) && Scheduled(46) && Scheduled(47)
  {
  }

  lemma Rounds12()
    ensures Scheduled(48) && Scheduled(49) && Scheduled(50) && Scheduled(51)
  {
  }

  lemma Rounds13()
    ensures Scheduled(52) && Scheduled(53) && Scheduled(54) && Scheduled(55)
  {
  }

  lemma Rounds14()
    ensures Scheduled(56) && Scheduled(57) && Scheduled(58) && Scheduled(59)
  {
  }

  lemma Rounds15()
    ensures Scheduled(60) && Scheduled(61) && Scheduled(62) && Scheduled(63)
  {
  }

  lemma Rounds16()
    ensures Scheduled(64) && Scheduled(65) && Scheduled(66) && Scheduled(67)
  {
  }

  lemma Rounds17()
    ensures Scheduled(68) && Scheduled(69) && Scheduled(70) && Scheduled(71)
  {
  }

  lemma Rounds18()
    ensures Scheduled(72) && Scheduled(73) && Scheduled(74) && Scheduled(75)
  {
  }

  lemma Rounds19()
    ensures Scheduled(76) && Scheduled(77) && Scheduled(78) && Scheduled(79)
  {
  }

  lemma Rounds20()
    ensures Scheduled(80) && Scheduled(81) && Scheduled(82) && Scheduled(83)
  {
  }

  lemma Rounds21()
    ensures Scheduled(84) && Scheduled(85) && Scheduled(86) && Scheduled(87)
  {
  }

  lemma Rounds22()
    ensures Scheduled(88) && Scheduled(89) && Scheduled(90) && Scheduled(91)
  {
  }

  lemma Rounds23()
    ensures Scheduled(92) && Scheduled(93) && Scheduled(94) && Scheduled(95)
  {
  }

  lemma Rounds24()
    ensures Scheduled(96) && Scheduled(97) && Scheduled(98) && Scheduled(99)
  {
  }

  lemma Rounds25()
    ensures Scheduled(100) && Scheduled(101) && Scheduled(102) && Scheduled(103)
  {
  }

  lemma Rounds26()
    ensures Scheduled(104) && Scheduled(105) && Scheduled(106) && Scheduled(107)
  {
  }

  lemma Rounds27()
    ensures Scheduled(108) && Scheduled(109) && Scheduled(110) && Scheduled(111)
  {
  }

  lemma Rounds28()
    ensures Scheduled(112) && Scheduled(113) && Scheduled(114) && Scheduled(115)
  {
  }

  lemma Rounds29()
    ensures Scheduled(116) && Scheduled(117) && Scheduled(118) && Scheduled(119)
  {
  }

  lemma Rounds30()
    ensures Scheduled(120) && Scheduled(121) && Scheduled(122) && Scheduled(123)
  {
  }

  lemma Rounds31()
    ensures Scheduled(124) && Scheduled(125) && Scheduled(126) && Scheduled(127)
  {
  }

  lemma Rounds32()
    ensures Scheduled(128) && Scheduled(129) && Scheduled(130) && Scheduled(131)
  {
  }

  lemma Rounds33()
    ensures Scheduled(132) && Scheduled(133) && Scheduled(134) && Scheduled(135)
  {
  }

  lemma Rounds34()
    ensures Scheduled(136) && Scheduled(137) && Scheduled(138) && Scheduled(139)
  {
  }

  lemma Rounds35()
    ensures Scheduled(140) && Scheduled(141) && Scheduled(142) && Scheduled(143)
  {
  }

  lemma Rounds36()
    ensures Scheduled(144) && Scheduled(145) && Scheduled(146) && Scheduled(147)
  {
  }

  lemma Rounds37()
    ensures Scheduled(148) && Scheduled(149) && Scheduled(150) && Scheduled(151)
  {
  }

  lemma Rounds38()
    ensures Scheduled(152) && Scheduled(153) && Scheduled(154) && Scheduled(155)
  {
  }

  lemma Rounds39()
    ensures Scheduled(156) && Scheduled(157) && Scheduled(158) && Scheduled(159)
  {
  }

  lemma Rounds40()
    ensures Scheduled(160) && Scheduled(161) && Scheduled(162) && Scheduled(163)
  {
  }

  lemma Rounds41()
    ensures Scheduled(164) && Scheduled(165) && Scheduled(166) && Scheduled(167)
  {
  }

  lemma Rounds42()
    ensures Scheduled(168) && Scheduled(169) && Scheduled(170) && Scheduled(171)
  {
  }

  lemma Rounds43()
    ensures Scheduled(172) && Scheduled(173) && Scheduled(174) && Scheduled(175)
  {
  }

  lemma Rounds44()
    ensures Scheduled(176) && Scheduled(177) && Scheduled(178) && Scheduled(179)
  {
  }

  lemma Rounds45()
    ensures Scheduled(180) && Scheduled(181) && Scheduled(182) && Scheduled(183)
  {
  }

  lemma Rounds46()
    ensures Scheduled(184) && Scheduled(185) && Scheduled(186) && Scheduled(187)
  {
  }

  lemma Rounds47()
    ensures Scheduled(188) && Scheduled(189) && Scheduled(190) && Scheduled(191)
  {
  }

  lemma Rounds48()
    ensures Scheduled(192) && Scheduled(193) && Scheduled(194) && Scheduled(195)
  {
  }

  lemma Rounds49()
    ensures Scheduled(196) && Scheduled(197) && Scheduled(198) && Scheduled(199)
  {
  }

  lemma Rounds50()
    ensures Scheduled(200) && Scheduled(201) && Scheduled(202) && Scheduled(203)
  {
  }

  lemma Rounds51()
    ensures Scheduled(204) && Scheduled(205) && Scheduled(206) && Scheduled(207)
  {
  }

  lemma Rounds52()
    ensures Scheduled(208) && Scheduled(209) && Scheduled(210) && Scheduled(211)
  {
  }

  lemma Rounds53()
    ensures Scheduled(212) && Scheduled(213) && Scheduled(214) && Scheduled(215)
  {
  }

  lemma Rounds54()
    ensures Scheduled(216) && Scheduled(217) && Scheduled(218) && Scheduled(219)
  {
  }

  lemma Rounds55()
    ensures Scheduled(220) && Scheduled(221) && Scheduled(222) && Scheduled(223)
  {
  }

  lemma Rounds56()
    ensures Scheduled(224) && Scheduled(225) && Scheduled(226) && Scheduled(227)
  {
  }

  lemma Rounds57()
    ensures Scheduled(228) && Scheduled(229) && Scheduled(230) && Scheduled(231)
  {
  }

  lemma Rounds58()
    ensures Scheduled(232) && Scheduled(233) && Scheduled(234) && Scheduled(235)
  {
  }

  lemma Rounds59()
    ensures Scheduled(236) && Scheduled(237) && Scheduled(238) && Scheduled(239)
  {
  }

  lemma Rounds60()
    ensures Scheduled(240) && Scheduled(241) && Scheduled(242) && Scheduled(243)
  {
  }

  lemma Rounds61()
    ensures Scheduled(244) && Scheduled(245) && Scheduled(246) && Scheduled(247)
  {
  }

  lemma Rounds62()
    ensures Scheduled(248) && Scheduled(249) && Scheduled(250) && Scheduled(251)
  {
  }

  lemma Rounds63()
    ensures Scheduled(252) && Scheduled(253) && Scheduled(254) && Scheduled(255)
  {
  }

  lemma Quarter0(n: int)
    requires 0 <= n < 16
    ensures FourScheduled(n)
  {
    hide Scheduled;
    match n {
      case 0 => Rounds0();
      case 1 => Rounds1();
      case 2 => Rounds2();
      case 3 => Rounds3();
      case 4 => Rounds4();
      case 5 => Rounds5();
      case 6 => Rounds6();
      case 7 => Rounds7();
      case 8 => Rounds8();
      case 9 => Rounds9();
      case 10 => Rounds10();
      case 11 => Rounds11();
      case 12 => Rounds12();
      case 13 => Rounds13();
      case 14 => Rounds14();
      case 15 => Rounds15();
    }
  }

  lemma Quarter1(n: int)
    requires 16 <= n < 32
    ensures FourScheduled(n)
  {
    hide Scheduled;
    match n {
      case 16 => Rounds16();
      case 17 => Rounds17();
      case 18 => Rounds18();
      case 19 => Rounds19();
      case 20 => Rounds20();
      case 21 => Rounds21();
      case 22 => Rounds22();
      case 23 => Rounds23();
      case 24 => Rounds24();
      case 25 => Rounds25();
      case 26 => Rounds26();
      case 27 => Rounds27();
      case 28 => Rounds28();
      case 29 => Rounds29();
      case 30 => Rounds30();
      case 31 => Rounds31();
    }
  }

  lemma Quarter2(n: int)
    requires 32 <= n < 48
    ensures FourScheduled(n)
  {
    hide Scheduled;
    match n {
      case 32 => Rounds32();
      case 33 => Rounds33();
      case 34 => Rounds34();
      case 35 => Rounds35();
      case 36 => Rounds36();
      case 37 => Rounds37();
      case 38 => Rounds38();
      case 39 => Rounds39();
      case 40 => Rounds40();
      case 41 => Rounds41();
      case 42 => Rounds42();
      case 43 => Rounds43();
      case 44 => Rounds44();
      case 45 => Rounds45();
      case 46 => Rounds46();
      case 47 => Rounds47();
    }
  }

  lemma Quarter3(n: int)
    requires 48 <= n < 64
    ensures FourScheduled(n)
  {
    hide Scheduled;
    match n {
      case 48 => Rounds48();
      case 49 => Rounds49();
      case 50 => Rounds50();
      case 51 => Rounds51();
      case 52 => Rounds52();
      case 53 => Rounds53();
      case 54 => Rounds54();
      case 55 => Rounds55();
      case 56 => Rounds56();
      case 57 => Rounds57();
      case 58 => Rounds58();
      case 59 => Rounds59();
      case 60 => Rounds60();
      case 61 => Rounds61();
      case 62 => Rounds62();
      case 63 => Rounds63();
    }
  }

  lemma AnyFourRounds(n: int)
    requires 0 <= n < 64
    ensures FourScheduled(n)
  {
    hide FourScheduled;
    match n / 16 {
      case 0 => Quarter0(n);
      case 1 => Quarter1(n);
      case 2 => Quarter2(n);
      case 3 => Quarter3(n);
    }
  }

  lemma Entry1Before256()
    ensures Value(1, 256) == 51
  {
  }

  lemma Entry51Before256()
    ensures Value(51, 256) == 78
  {
  }

  lemma Entry129Before257()
    ensures Value(129, 257) == 235
  {
  }

  lemma Encryption1()
    ensures Right(256) && J(256) == 51 && V(256) == 51
    ensures Value(51, 256) == 78 && Value(129, 257) == 235
  {
    hide Value;
    Entry1Before256();
    Entry51Before256();
    Entry129Before257();
  }

  lemma Entry2Before257()
    ensures Value(2, 257) == 132
  {
  }

  lemma Entry198Before183()
    ensures Value(198, 183) == 198
  {
  }

  lemma Entry183Before257()
    ensures Value(183, 257) == 198
  {
    Entry198Before183();
  }

  lemma Entry159Before8()
    ensures Value(159, 8) == 159
  {
  }

  lemma Entry8Before74()
    ensures Value(8, 74) == 159
  {
    Entry159Before8();
  }

  lemma Entry74Before258()
    ensures Value(74, 258) == 159
  {
    Entry8Before74();
  }

  lemma Encryption2()
    ensures Right(257) && J(257) == 183 && V(257) == 132
    ensures Value(183, 257) == 198 && Value(74, 258) == 159
  {
    hide Value;
    Entry2Before257();
    Entry183Before257();
    Entry74Before258();
  }

  lemma Entry3Before258()
    ensures Value(3, 258) == 157
  {
  }

  lemma Entry241Before84()
    ensures Value(241, 84) == 20
  {
  }

  lemma Entry84Before258()
    ensures Value(84, 258) == 20
  {
    Entry241Before84();
  }

  lemma Entry243Before177()
    ensures Value(243, 177) == 119
  {
  }

  lemma Entry177Before259()
    ensures Value(177, 259) == 119
  {
    Entry243Before177();
  }

  lemma Encryption3()
    ensures Right(258) && J(258) == 84 && V(258) == 157
    ensures Value(84, 258) == 20 && Value(177, 259) == 119
  {
    hide Value;
    Entry3Before258();
    Entry84Before258();
    Entry177Before259();
  }

  lemma Entry4Before259()
    ensures Value(4, 259) == 192
  {
  }

  lemma Entry20Before259()
    ensures Value(20, 259) == 41
  {
  }

  lemma Entry129Before105()
    ensures Value(129, 105) == 129
  {
  }

  lemma Entry105Before233()
    ensures Value(105, 233) == 129
  {
    Entry129Before105();
  }

  lemma Entry233Before260()
    ensures Value(233, 260) == 129
  {
    Entry105Before233();
  }

  lemma Encryption4()
    ensures Right(259) && J(259) == 20 && V(259) == 192
    ensures Value(20, 259) == 41 && Value(233, 260) == 129
  {
    hide Value;
    Entry4Before259();
    Entry20Before259();
    Entry233Before260();
  }

  lemma Entry5Before260()
    ensures Value(5, 260) == 200
  {
  }

  lemma Entry220Before260()
    ensures Value(220, 260) == 184
  {
  }

  lemma Entry183Before28()
    ensures Value(183, 28) == 183
  {
  }

  lemma Entry28Before87()
    ensures Value(28, 87) == 183
  {
    Entry183Before28();
  }

  lemma Entry87Before115()
    ensures Value(87, 115) == 183
  {
    Entry28Before87();
  }

  lemma Entry115Before128()
    ensures Value(115, 128) == 183
  {
    Entry87Before115();
  }

  lemma Entry128Before261()
    ensures Value(128, 261) == 183
  {
    Entry115Before128();
  }

  lemma Encryption5()
    ensures Right(260) && J(260) == 220 && V(260) == 200
    ensures Value(220, 260) == 184 && Value(128, 261) == 183
  {
    hide Value;
    Entry5Before260();
    Entry220Before260();
    Entry128Before261();
  }

  lemma Entry6Before261()
    ensures Value(6, 261) == 29
  {
  }

  lemma Entry143Before249()
    ensures Value(143, 249) == 221
  {
  }

  lemma Entry249Before261()
    ensures Value(249, 261) == 221
  {
    Entry143Before249();
  }

  lemma Entry127Before114()
    ensures Value(127, 114) == 52
  {
  }

  lemma Entry114Before238()
    ensures Value(114, 238) == 52
  {
    Entry127Before114();
  }

  lemma Entry238Before250()
    ensures Value(238, 250) == 52
  {
    Entry114Before238();
  }

  lemma Entry250Before262()
    ensures Value(250, 262) == 52
  {
    Entry238Before250();
  }

  lemma Encryption6()
    ensures Right(261) && J(261) == 249 && V(261) == 29
    ensures Value(249, 261) == 221 && Value(250, 262) == 52
  {
    hide Value;
    Entry6Before261();
    Entry249Before261();
    Entry250Before262();
  }

  lemma Entry7Before262()
    ensures Value(7, 262) == 168
  {
  }

  lemma Entry160Before92()
    ensures Value(160, 92) == 160
  {
  }

  lemma Entry92Before161()
    ensures Value(92, 161) == 160
  {
    Entry160Before92();
  }

  lemma Entry161Before262()
    ensures Value(161, 262) == 160
  {
    Entry92Before161();
  }

  lemma Entry72Before263()
    ensures Value(72, 263) == 202
  {
  }

  lemma Encryption7()
    ensures Right(262) && J(262) == 161 && V(262) == 168
    ensures Value(161, 262) == 160 && Value(72, 263) == 202
  {
    hide Value;
    Entry7Before262();
    Entry161Before262();
    Entry72Before263();
  }

  lemma Entry8Before263()
    ensures Value(8, 263) == 74
  {
  }

  lemma Entry39Before129()
    ensures Value(39, 129) == 48
  {
  }

  lemma Entry129Before235()
    ensures Value(129, 235) == 48
  {
    Entry39Before129();
  }

  lemma Entry235Before263()
    ensures Value(235, 263) == 48
  {
    Entry129Before235();
  }

  lemma Entry122Before264()
    ensures Value(122, 264) == 114
  {
  }

  lemma Encryption8()
    ensures Right(263) && J(263) == 235 && V(263) == 74
    ensures Value(235, 263) == 48 && Value(122, 264) == 114
  {
    hide Value;
    Entry8Before263();
    Entry235Before263();
    Entry122Before264();
  }

  lemma Entry243Before9()
    ensures Value(243, 9) == 243
  {
  }

  lemma Entry9Before264()
    ensures Value(9, 264) == 243
  {
    Entry243Before9();
  }

  lemma Entry252Before222()
    ensures Value(252, 222) == 252
  {
  }

  lemma Entry222Before264()
    ensures Value(222, 264) == 252
  {
    Entry252Before222();
  }

  lemma Entry20Before239()
    ensures Value(20, 239) == 167
  {
  }

  lemma Entry239Before265()
    ensures Value(239, 265) == 167
  {
    Entry20Before239();
  }

  lemma Encryption9()
    ensures Right(264) && J(264) == 222 && V(264) == 243
    ensures Value(222, 264) == 252 && Value(239, 265) == 167
  {
    hide Value;
    Entry9Before264();
    Entry222Before264();
    Entry239Before265();
  }

  lemma OneOfFour(n: int, r: int)
    requires FourScheduled(n) && 4 * n <= r < 4 * n + 4
    ensures Scheduled(r)
  {
    hide Scheduled;
  }

  lemma ScheduledIsRight(r: int)
    requires 0 <= r < 256 && Scheduled(r)
    ensures Right(r)
  {
    hide J, V, Listed, KeyByteAt, Found, Value;
    FoundIsValue(r);
  }

  lemma AllRounds(r: int)
    requires 0 <= r < ROUNDS
    ensures Right(r)
  {
    hide Right, Scheduled, FourScheduled;
    if r < 256 {
      AnyFourRounds(r / 4);
      OneOfFour(r / 4, r);
      ScheduledIsRight(r);
    } else {
      match r {
        case 256 => Encryption1();
        case 257 => Encryption2();
        case 258 => Encryption3();
        case 259 => Encryption4();
        case 260 => Encryption5();
        case 261 => Encryption6();
        case 262 => Encryption7();
        case 263 => Encryption8();
        case 264 => Encryption9();
      }
    }
  }

  /** A round moves the entries at its two indices and no others. */
  lemma NextValue(p: int, r: int)
    requires 0 <= p < 256 && 0 <= r < ROUNDS && Listed(J(r), r)
    ensures Value(p, r + 1) == if p == J(r) then V(r) else if p == First(r) then Value(J(r), r) else Value(p, r)
  {
    LastMoveGrows(p, r);
    hide LastHit, LastFirst, J, V;
  }

  lemma LastMoveGrows(p: int, r: int)
    requires 0 <= p < 256 && 0 <= r < ROUNDS && Listed(J(r), r)
    ensures LastHit(LastFirst(p, r + 1), p, r + 1)
      == if p == J(r) || p == First(r) then r else LastHit(LastFirst(p, r), p, r)
    ensures -1 <= LastHit(LastFirst(p, r), p, r) < r
  {
    hide J, HitA, HitB, HitC, HitD;
  }

  lemma NothingMovedYet(p: int)
    requires p >= 0
    ensures Value(p, 0) == p
  {
    hide LastHit;
  }

  /** What key scheduling finds is the entry at the first index. */
  lemma FoundIsValue(r: int)
    requires 0 <= r < 256
    ensures Found(r) == Value(r, r)
  {
    hide J, V, HitA, HitB, HitC, HitD;
  }
}
